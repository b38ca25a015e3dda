/** The dataset parsers of ptp_engine.cpp: fixed lists of words, counted arrays and counted strings, read
    one after the other by an offset that stops at the end of the buffer. */
module Dataset {
  import opened Bytes
  import opened Container
  import opened Utf8

  /** A field as it stands on the wire. */
  datatype Field =
    | Word16(v: u16)
    | Word32(w: u32)
    | Text(units: seq<u16>)
    | Array16(elems: seq<u16>)
  {
    predicate Encodable() {
      match this
      case Text(units) => |units| <= 254 && NoNull(units)
      case Array16(elems) => |elems| < 0x8000_0000
      case _ => true
    }

    function Put(): seq<byte>
      requires Encodable()
    {
      match this
      case Word16(v) => Put16(v)
      case Word32(w) => Put32(w)
      case Text(units) => PutString(units)
      case Array16(elems) => Put32(|elems|) + PutUnits(elems)
    }

    function Kind(): Kind {
      match this
      case Word16(_) => K16
      case Word32(_) => K32
      case Text(_) => KText
      case Array16(_) => KArray
    }

    /** What the parsers make of the field: text becomes UTF-8. */
    function Meaning(): Value {
      match this
      case Word16(v) => Number(v)
      case Word32(w) => Number(w)
      case Text(units) => Utf8Text(Encode(units))
      case Array16(elems) => Numbers(elems)
    }
  }

  datatype Kind = K16 | K32 | KText | KArray

  datatype Value = Number(n: u32) | Utf8Text(text: seq<byte>) | Numbers(ns: seq<u16>)

  // ---- Reading one field ----

  /** A word that does not fit reads as zero and leaves the offset alone. */
  method ReadU16(data: seq<byte>, off: nat) returns (v: u16, next: nat)
    ensures Some((Number(v), next)) == ReadField(data, off, K16)
  {
    if off + 2 > |data| { return 0, off; }
    v, next := Get16(data, off), off + 2;
  }

  method ReadU32(data: seq<byte>, off: nat) returns (v: u32, next: nat)
    ensures Some((Number(v), next)) == ReadField(data, off, K32)
  {
    if off + 4 > |data| { return 0, off; }
    v, next := Get32(data, off), off + 4;
  }

  /** The bounds check computes `count * 2` in 32 bits. */
  function CheckedSize(count: u32): nat {
    count * 2 % TWO_32
  }

  /** Reads the count, then that many elements. `None` stands for a loop that runs past the buffer. */
  method ReadU16Array(data: seq<byte>, off: nat) returns (out: Option<seq<u16>>, next: nat)
    ensures out.None? <==> ReadField(data, off, KArray).None?
    ensures out.Some? ==> ReadField(data, off, KArray) == Some((Numbers(out.value), next))
  {
    var vals: seq<u16> := [];
    next := off;
    if next + 4 > |data| { return Some(vals), next; }
    var count: int := Get32(data, next);
    next := next + 4;
    if count == 0 || next + CheckedSize(count) > |data| { return Some(vals), next; }
    var i: int := 0;
    while i < count
      invariant 0 <= i <= count && next == off + 4 + 2 * i <= |data|
      invariant vals == Units(data, off + 4, i)
    {
      if next + 2 > |data| { return None, next; }
      UnitsSnoc(data, off + 4, i);
      vals := vals + [Get16(data, next)];
      next, i := next + 2, i + 1;
    }
    out := Some(vals);
  }

  function ReadField(data: seq<byte>, off: nat, kind: Kind): (r: Option<(Value, nat)>)
    ensures r.Some? && off <= |data| ==> off <= r.value.1 <= |data|
  {
    match kind
    case K16 => if off + 2 > |data| then Some((Number(0), off)) else Some((Number(Get16(data, off)), off + 2))
    case K32 => if off + 4 > |data| then Some((Number(0), off)) else Some((Number(Get32(data, off)), off + 4))
    case KText => var (text, next) := PtpString(data, off); Some((Utf8Text(text), next))
    case KArray =>
      if off + 4 > |data| then Some((Numbers([]), off)) else
      var count: int := Get32(data, off);
      if count == 0 || off + 4 + CheckedSize(count) > |data| then Some((Numbers([]), off + 4))
      else if off + 4 + 2 * count > |data| then None
      else Some((Numbers(Units(data, off + 4, count)), off + 4 + 2 * count))
  }

  /** Reading an array stays inside the buffer unless its count is 2^31 or more and the wrapped check
      passes all the same. */
  lemma ArrayStaysInside(data: seq<byte>, off: nat)
    ensures ReadField(data, off, KArray).None?
       <==> && off + 4 <= |data| && Get32(data, off) >= 0x8000_0000
            && off + 4 + (2 * Get32(data, off) - TWO_32) <= |data| < off + 4 + 2 * Get32(data, off)
  {
    if off + 4 <= |data| {
      var count: int := Get32(data, off);
      WrappedSize(count);
    }
  }

  /** What an array reads as: all its elements if they are there, and otherwise, unless the check wraps, none, with
      the offset behind the count. Without room for the count nothing is read. */
  lemma ArrayExactly(data: seq<byte>, off: nat)
    ensures off + 4 > |data| ==> ReadField(data, off, KArray) == Some((Numbers([]), off))
    ensures off + 4 <= |data| && Get32(data, off) < 0x8000_0000 ==>
              ReadField(data, off, KArray)
              == if off + 4 + 2 * Get32(data, off) <= |data|
                 then Some((Numbers(Units(data, off + 4, Get32(data, off))), off + 4 + 2 * Get32(data, off)))
                 else Some((Numbers([]), off + 4))
  {
    if off + 4 <= |data| {
      WrappedSize(Get32(data, off));
      assert Units(data, off + 4, 0) == [];
    }
  }

  /** A number without room for it reads as zero and takes nothing. */
  lemma NumberWithoutRoom(data: seq<byte>, off: nat)
    ensures off + 2 > |data| ==> ReadField(data, off, K16) == Some((Number(0), off))
    ensures off + 4 > |data| ==> ReadField(data, off, K32) == Some((Number(0), off))
  {
  }

  lemma WrappedSize(count: u32)
    ensures CheckedSize(count) == if count < 0x8000_0000 then 2 * count else 2 * count - TWO_32
  {
  }

  lemma {:induction false} ReadBack(data: seq<byte>, off: nat, f: Field)
    requires f.Encodable() && At(data, off, f.Put())
    ensures ReadField(data, off, f.Kind()) == Some((f.Meaning(), off + |f.Put()|))
  {
    match f
    case Word16(v) => AtPut16(data, off, v);
    case Word32(w) => AtPut32(data, off, w);
    case Text(units) => StringRoundTrip(data, off, units);
    case Array16(elems) =>
      AtSplit(data, off, Put32(|elems|), PutUnits(elems));
      AtPut32(data, off, |elems|);
      UnitsOfPut(data, off + 4, elems);
      WrappedSize(|elems|);
  }

  /** The wire form of an array byte by byte: a 32-bit count and little-endian elements (MTP 1.0, section 3.2.2). */
  lemma ArrayLayout(elems: seq<u16>, i: nat)
    requires |elems| < 0x8000_0000 && i < |elems|
    ensures var s := Array16(elems).Put();
      && |s| == 4 + 2 * |elems|
      && s[..4] == [|elems| % 0x100, |elems| / 0x100 % 0x100, |elems| / 0x1_0000 % 0x100, |elems| / 0x100_0000]
      && s[4 + 2 * i] == elems[i] % 0x100 && s[5 + 2 * i] == elems[i] / 0x100
  {
    Put32Layout(|elems|);
    UnitsLayout(elems, i);
  }

  // ---- Reading a list of fields ----

  /** The values of the fields of `kinds`, read in order from offset 0, and the offset behind them. */
  function Parse(data: seq<byte>, kinds: seq<Kind>): (r: Option<(seq<Value>, nat)>)
    ensures r.Some? ==> |r.value.0| == |kinds| && r.value.1 <= |data|
  {
    if kinds == [] then Some(([], 0))
    else ParseNext(data, Parse(data, kinds[..|kinds| - 1]), kinds[|kinds| - 1])
  }

  /** One more field behind those already read. */
  function ParseNext(data: seq<byte>, done: Option<(seq<Value>, nat)>, kind: Kind): (r: Option<(seq<Value>, nat)>)
    ensures r.Some? ==> done.Some? && |r.value.0| == |done.value.0| + 1
    ensures r.Some? && done.value.1 <= |data| ==> done.value.1 <= r.value.1 <= |data|
  {
    if done.None? then None else
    var value := ReadField(data, done.value.1, kind);
    if value.None? then None else Some((done.value.0 + [value.value.0], value.value.1))
  }

  predicate AllEncodable(fields: seq<Field>) {
    forall i | 0 <= i < |fields| :: fields[i].Encodable()
  }

  function PutAll(fields: seq<Field>): seq<byte>
    requires AllEncodable(fields)
  {
    if fields == [] then [] else PutAll(fields[..|fields| - 1]) + fields[|fields| - 1].Put()
  }

  function Kinds(fields: seq<Field>): (kinds: seq<Kind>)
    ensures |kinds| == |fields|
  {
    if fields == [] then [] else Kinds(fields[..|fields| - 1]) + [fields[|fields| - 1].Kind()]
  }

  function Meanings(fields: seq<Field>): (values: seq<Value>)
    ensures |values| == |fields|
  {
    if fields == [] then [] else Meanings(fields[..|fields| - 1]) + [fields[|fields| - 1].Meaning()]
  }

  /** Round trip, for every list of fields: parsing its encoding gives back the fields and consumes the
      whole encoding, whatever bytes follow it. */
  lemma {:induction false} RoundTrip(data: seq<byte>, fields: seq<Field>)
    requires AllEncodable(fields) && At(data, 0, PutAll(fields))
    ensures Parse(data, Kinds(fields)) == Some((Meanings(fields), |PutAll(fields)|))
  {
    if fields == [] {
      NoFields();
    } else {
      var before, last := fields[..|fields| - 1], fields[|fields| - 1];
      FieldsUnfold(fields);
      Halves(data, PutAll(fields), PutAll(before), last.Put());
      RoundTrip(data, before);
      RoundTripLast(data, fields);
    }
  }

  lemma Halves(data: seq<byte>, whole: seq<byte>, head: seq<byte>, tail: seq<byte>)
    requires At(data, 0, whole) && whole == head + tail
    ensures At(data, 0, head) && At(data, |head|, tail)
  {
    AtSplit(data, 0, head, tail);
  }

  lemma {:induction false} RoundTripLast(data: seq<byte>, fields: seq<Field>)
    requires fields != [] && AllEncodable(fields) && At(data, 0, PutAll(fields))
    requires AllEncodable(fields[..|fields| - 1])
    requires var before := fields[..|fields| - 1];
      Parse(data, Kinds(before)) == Some((Meanings(before), |PutAll(before)|))
    ensures Parse(data, Kinds(fields)) == Some((Meanings(fields), |PutAll(fields)|))
  {
    var before, last := fields[..|fields| - 1], fields[|fields| - 1];
    FieldsUnfold(fields);
    Halves(data, PutAll(fields), PutAll(before), last.Put());
    RoundTripNext(data, Kinds(before), Meanings(before), |PutAll(before)|, last);
  }

  lemma NoFields()
    ensures Kinds([]) == [] && Meanings([]) == [] && PutAll([]) == []
  {
  }

  lemma FieldsUnfold(fields: seq<Field>)
    requires AllEncodable(fields) && fields != []
    ensures var before, last := fields[..|fields| - 1], fields[|fields| - 1];
      && AllEncodable(before) && last.Encodable() && PutAll(fields) == PutAll(before) + last.Put()
      && Kinds(fields) == Kinds(before) + [last.Kind()] && Meanings(fields) == Meanings(before) + [last.Meaning()]
  {
  }

  lemma RoundTripNext(data: seq<byte>, kinds: seq<Kind>, values: seq<Value>, off: nat, f: Field)
    requires Parse(data, kinds) == Some((values, off))
    requires f.Encodable() && At(data, off, f.Put())
    ensures Parse(data, kinds + [f.Kind()]) == Some((values + [f.Meaning()], off + |f.Put()|))
  {
    ReadBack(data, off, f);
    ParseSnoc(data, kinds, f.Kind());
  }

  lemma ParseSnoc(data: seq<byte>, kinds: seq<Kind>, kind: Kind)
    ensures Parse(data, kinds + [kind]) == ParseNext(data, Parse(data, kinds), kind)
  {
    assert (kinds + [kind])[..|kinds|] == kinds;
  }

  /** What a field reads as that is not there. */
  function Absent(kind: Kind): Value {
    match kind
    case K16 => Number(0)
    case K32 => Number(0)
    case KText => Utf8Text([])
    case KArray => Numbers([])
  }

  function AllAbsent(kinds: seq<Kind>): (values: seq<Value>)
    ensures |values| == |kinds|
  {
    if kinds == [] then [] else AllAbsent(kinds[..|kinds| - 1]) + [Absent(kinds[|kinds| - 1])]
  }

  /** A dataset cut short behind any of its fields: those before the cut are read back, those behind it read as
      zero or empty, and the offset stays at the end. */
  lemma {:induction false} CutDataset(fields: seq<Field>, missing: seq<Kind>)
    requires AllEncodable(fields)
    ensures Parse(PutAll(fields), Kinds(fields) + missing)
         == Some((Meanings(fields) + AllAbsent(missing), |PutAll(fields)|))
  {
    RoundTrip(PutAll(fields), fields);
    AbsentBehind(PutAll(fields), Kinds(fields), Meanings(fields), missing);
  }

  lemma {:induction false} AbsentBehind(data: seq<byte>, kinds: seq<Kind>, values: seq<Value>, missing: seq<Kind>)
    requires Parse(data, kinds) == Some((values, |data|))
    ensures Parse(data, kinds + missing) == Some((values + AllAbsent(missing), |data|))
  {
    if missing == [] {
      assert kinds + missing == kinds && values + AllAbsent(missing) == values;
    } else {
      var before, kind := missing[..|missing| - 1], missing[|missing| - 1];
      AbsentBehind(data, kinds, values, before);
      ParseSnoc(data, kinds + before, kind);
      AbsentAtEnd(data, kind);
      Behind(kinds, before, kind, missing);
      Behind(values, AllAbsent(before), Absent(kind), AllAbsent(missing));
    }
  }

  lemma Behind<T>(a: seq<T>, b: seq<T>, x: T, bx: seq<T>)
    requires bx == b + [x]
    ensures a + bx == (a + b) + [x]
  {
  }

  lemma AbsentAtEnd(data: seq<byte>, kind: Kind)
    ensures ReadField(data, |data|, kind) == Some((Absent(kind), |data|))
  {
  }

  lemma {:induction false} MeaningAt(fields: seq<Field>, i: nat)
    requires i < |fields|
    ensures Meanings(fields)[i] == fields[i].Meaning() && Kinds(fields)[i] == fields[i].Kind()
  {
    var n := |fields| - 1;
    if i < n {
      MeaningAt(fields[..n], i);
    }
  }

  lemma {:induction false} ParseStuck(data: seq<byte>, kinds: seq<Kind>, i: nat)
    requires i <= |kinds| && Parse(data, kinds[..i]).None?
    ensures Parse(data, kinds).None?
  {
    if i == |kinds| {
      assert kinds[..i] == kinds;
    } else {
      var shorter := kinds[..|kinds| - 1];
      assert shorter[..i] == kinds[..i];
      ParseStuck(data, shorter, i);
    }
  }

  /** Field `i` of a trace was read from offset `offs[i]` and ended at `offs[i + 1]`. */
  ghost predicate FieldRead(data: seq<byte>, kinds: seq<Kind>, values: seq<Value>, offs: seq<nat>, i: nat) {
    && i < |kinds| && i < |values| && i + 1 < |offs|
    && ReadField(data, offs[i], kinds[i]) == Some((values[i], offs[i + 1]))
  }

  ghost predicate Trace(data: seq<byte>, kinds: seq<Kind>, values: seq<Value>, offs: seq<nat>) {
    && |values| == |kinds| && |offs| == |kinds| + 1 && offs[0] == 0
    && forall i: nat | i < |kinds| :: FieldRead(data, kinds, values, offs, i)
  }

  lemma {:induction false} TraceParses(data: seq<byte>, kinds: seq<Kind>, values: seq<Value>, offs: seq<nat>)
    requires Trace(data, kinds, values, offs)
    ensures Parse(data, kinds) == Some((values, offs[|kinds|]))
  {
    if kinds != [] {
      var n := |kinds| - 1;
      var k, v, o := kinds[..n], values[..n], offs[..n + 1];
      forall i: nat | i < n ensures FieldRead(data, k, v, o, i) {
        assert FieldRead(data, kinds, values, offs, i);
      }
      TraceParses(data, k, v, o);
      assert FieldRead(data, kinds, values, offs, n);
      assert values == v + [values[n]];
    }
  }

  lemma TraceStops(data: seq<byte>, kinds: seq<Kind>, values: seq<Value>, offs: seq<nat>, kind: Kind)
    requires Trace(data, kinds, values, offs) && ReadField(data, offs[|kinds|], kind).None?
    ensures Parse(data, kinds + [kind]).None?
  {
    TraceParses(data, kinds, values, offs);
    ParseSnoc(data, kinds, kind);
  }

  /** The buffer and the offset that the parsers' local readers share; `kinds`, `values` and `offs`
      record what was read so far. */
  class Reader {
    const data: seq<byte>
    var off: nat
    ghost var kinds: seq<Kind>
    ghost var values: seq<Value>
    ghost var offs: seq<nat>

    ghost predicate Valid()
      reads this
    {
      Trace(data, kinds, values, offs) && off == offs[|kinds|]
    }

    constructor (data: seq<byte>)
      ensures Valid() && this.data == data && kinds == [] && values == []
    {
      this.data, off, kinds, values, offs := data, 0, [], [], [0];
    }

    ghost method Record(kind: Kind, value: Value, next: nat)
      requires Valid() && ReadField(data, off, kind) == Some((value, next))
      modifies `kinds, `values, `offs
      ensures Trace(data, kinds, values, offs) && offs[|kinds|] == next
      ensures kinds == old(kinds) + [kind] && values == old(values) + [value]
    {
      var k, v, o := kinds + [kind], values + [value], offs + [next];
      forall i: nat | i < |k| ensures FieldRead(data, k, v, o, i) {
        if i < |kinds| {
          assert FieldRead(data, kinds, values, offs, i);
        }
      }
      kinds, values, offs := k, v, o;
    }

    method U16() returns (v: u16)
      requires Valid()
      modifies this
      ensures Valid() && kinds == old(kinds) + [K16] && values == old(values) + [Number(v)]
    {
      var next;
      v, next := ReadU16(data, off);
      Record(K16, Number(v), next);
      off := next;
    }

    method U32() returns (v: u32)
      requires Valid()
      modifies this
      ensures Valid() && kinds == old(kinds) + [K32] && values == old(values) + [Number(v)]
    {
      var next;
      v, next := ReadU32(data, off);
      Record(K32, Number(v), next);
      off := next;
    }

    method String() returns (text: seq<byte>)
      requires Valid()
      modifies this
      ensures Valid() && kinds == old(kinds) + [KText] && values == old(values) + [Utf8Text(text)]
    {
      var next;
      text, next := ReadPtpString(data, off);
      Record(KText, Utf8Text(text), next);
      off := next;
    }

    method Array() returns (ns: Option<seq<u16>>)
      requires Valid()
      modifies this
      ensures ns.None? ==> Parse(data, old(kinds) + [KArray]).None?
      ensures ns.Some? ==> Valid() && kinds == old(kinds) + [KArray]
      ensures ns.Some? ==> values == old(values) + [Numbers(ns.value)]
    {
      var next;
      ns, next := ReadU16Array(data, off);
      if ns.None? {
        TraceStops(data, kinds, values, offs, KArray);
        return;
      }
      Record(KArray, Numbers(ns.value), next);
      off := next;
    }
  }

  // ---- DeviceInfo (MTP 1.0, section 5.1.1) ----

  const DEVICE_INFO: seq<Kind> :=
    [K16, K32, K16, KText, K16, KArray, KArray, KArray, KArray, KArray, KText, KText, KText, KText]

  datatype DeviceInfo = DeviceInfo(
    standardVersion: u16, vendorExtensionID: u32, vendorExtensionVersion: u16,
    vendorExtensionDesc: seq<byte>, functionalMode: u16,
    operationsSupported: seq<u16>, eventsSupported: seq<u16>, devicePropertiesSupported: seq<u16>,
    captureFormats: seq<u16>, imageFormats: seq<u16>,
    manufacturer: seq<byte>, model: seq<byte>, deviceVersion: seq<byte>, serialNumber: seq<byte>)
  {
    function Values(): seq<Value> {
      [Number(standardVersion), Number(vendorExtensionID), Number(vendorExtensionVersion),
       Utf8Text(vendorExtensionDesc), Number(functionalMode),
       Numbers(operationsSupported), Numbers(eventsSupported), Numbers(devicePropertiesSupported),
       Numbers(captureFormats), Numbers(imageFormats),
       Utf8Text(manufacturer), Utf8Text(model), Utf8Text(deviceVersion), Utf8Text(serialNumber)]
    }
  }

  /** `None` when an array read runs past the buffer. */
  method ParseDeviceInfo(data: seq<byte>) returns (di: Option<DeviceInfo>)
    ensures di.None? <==> Parse(data, DEVICE_INFO).None?
    ensures di.Some? ==> Parse(data, DEVICE_INFO).value.0 == di.value.Values()
  {
    var r := new Reader(data);
    var standardVersion, vendorExtensionID, vendorExtensionVersion, vendorExtensionDesc, functionalMode :=
      ReadDeviceHead(r);
    var arrays := ReadArrays(r);
    if arrays.None? { return None; }
    var a := arrays.value;
    var manufacturer, model, deviceVersion, serialNumber := ReadFourStrings(r);
    di := Some(DeviceInfo(standardVersion, vendorExtensionID, vendorExtensionVersion, vendorExtensionDesc,
                          functionalMode, a[0], a[1], a[2], a[3], a[4],
                          manufacturer, model, deviceVersion, serialNumber));
    assert r.kinds == DEVICE_INFO;
    assert r.values == di.value.Values();
    TraceParses(data, r.kinds, r.values, r.offs);
  }

  method ReadFourStrings(r: Reader) returns (a: seq<byte>, b: seq<byte>, c: seq<byte>, d: seq<byte>)
    requires r.Valid()
    modifies r
    ensures r.Valid() && r.kinds == old(r.kinds) + [KText, KText, KText, KText]
    ensures r.values == old(r.values) + [Utf8Text(a), Utf8Text(b), Utf8Text(c), Utf8Text(d)]
  {
    a := r.String();
    b := r.String();
    c := r.String();
    d := r.String();
  }

  method ReadDeviceHead(r: Reader)
    returns (standard: u16, vendor: u32, vendorVersion: u16, vendorDesc: seq<byte>, mode: u16)
    requires r.Valid()
    modifies r
    ensures r.Valid() && r.kinds == old(r.kinds) + [K16, K32, K16, KText, K16]
    ensures r.values == old(r.values) + [Number(standard), Number(vendor), Number(vendorVersion),
                                         Utf8Text(vendorDesc), Number(mode)]
  {
    standard := r.U16();
    vendor := r.U32();
    vendorVersion := r.U16();
    vendorDesc := r.String();
    mode := r.U16();
  }

  /** The five arrays in the middle of DeviceInfo. */
  method ReadArrays(r: Reader) returns (arrays: Option<seq<seq<u16>>>)
    requires r.Valid() && r.kinds == DEVICE_INFO[..5]
    modifies r
    ensures arrays.None? ==> Parse(r.data, DEVICE_INFO).None?
    ensures arrays.Some? ==> r.Valid() && r.kinds == DEVICE_INFO[..10] && |arrays.value| == 5
    ensures arrays.Some? ==> r.values == old(r.values) + AsValues(arrays.value)
  {
    var all := [];
    var i := 0;
    while i < 5
      invariant 0 <= i <= 5 && |all| == i
      invariant r.Valid() && r.kinds == DEVICE_INFO[..5 + i]
      invariant r.values == old(r.values) + AsValues(all)
    {
      var one := r.Array();
      assert DEVICE_INFO[..5 + i] + [KArray] == DEVICE_INFO[..6 + i];
      if one.None? {
        ParseStuck(r.data, DEVICE_INFO, 6 + i);
        return None;
      }
      assert AsValues(all + [one.value]) == AsValues(all) + [Numbers(one.value)];
      all, i := all + [one.value], i + 1;
    }
    arrays := Some(all);
  }

  function AsValues(arrays: seq<seq<u16>>): seq<Value> {
    seq(|arrays|, i requires 0 <= i < |arrays| => Numbers(arrays[i]))
  }

  // ---- ObjectInfo (MTP 1.0, section 5.3.1), without Keywords ----

  const OBJECT_INFO: seq<Kind> :=
    [K32, K16, K16, K32] + [K16, K32, K32, K32] + [K32, K32, K32] + [K32, K16, K32, K32] + [KText, KText, KText]

  datatype ObjectInfo = ObjectInfo(
    storageID: u32, objectFormat: u16, protectionStatus: u16, objectCompressedSize: u32,
    thumbFormat: u16, thumbCompressedSize: u32, thumbPixWidth: u32, thumbPixHeight: u32,
    imagePixWidth: u32, imagePixHeight: u32, imageBitDepth: u32, parentObject: u32,
    associationType: u16, associationDesc: u32, sequenceNumber: u32,
    filename: seq<byte>, captureDate: seq<byte>, modificationDate: seq<byte>)
  {
    function Values(): seq<Value> {
      [Number(storageID), Number(objectFormat), Number(protectionStatus), Number(objectCompressedSize)]
      + [Number(thumbFormat), Number(thumbCompressedSize), Number(thumbPixWidth), Number(thumbPixHeight)]
      + [Number(imagePixWidth), Number(imagePixHeight), Number(imageBitDepth)]
      + [Number(parentObject), Number(associationType), Number(associationDesc), Number(sequenceNumber)]
      + [Utf8Text(filename), Utf8Text(captureDate), Utf8Text(modificationDate)]
    }
  }

  method ParseObjectInfo(data: seq<byte>) returns (obj: ObjectInfo)
    ensures Parse(data, OBJECT_INFO).Some?
    ensures Parse(data, OBJECT_INFO).value.0 == obj.Values()
  {
    var r := new Reader(data);
    var storageID, objectFormat, protectionStatus, objectCompressedSize := ReadObjectHead(r);
    var thumbFormat, thumbCompressedSize, thumbPixWidth, thumbPixHeight := ReadThumb(r);
    var imagePixWidth, imagePixHeight, imageBitDepth := ReadImage(r);
    var parentObject, associationType, associationDesc, sequenceNumber := ReadPlace(r);
    var filename, captureDate, modificationDate := ReadThreeStrings(r);
    obj := ObjectInfo(storageID, objectFormat, protectionStatus, objectCompressedSize, thumbFormat,
                      thumbCompressedSize, thumbPixWidth, thumbPixHeight, imagePixWidth, imagePixHeight,
                      imageBitDepth, parentObject, associationType, associationDesc, sequenceNumber,
                      filename, captureDate, modificationDate);
    assert [] + [K32, K16, K16, K32] == [K32, K16, K16, K32];
    assert r.kinds == OBJECT_INFO && r.values == obj.Values();
    TraceParses(data, r.kinds, r.values, r.offs);
  }

  method ReadObjectHead(r: Reader) returns (storageID: u32, format: u16, protection: u16, size: u32)
    requires r.Valid()
    modifies r
    ensures r.Valid() && r.kinds == old(r.kinds) + [K32, K16, K16, K32]
    ensures r.values == old(r.values) + [Number(storageID), Number(format), Number(protection), Number(size)]
  {
    storageID := r.U32();
    format := r.U16();
    protection := r.U16();
    size := r.U32();
  }

  method ReadThumb(r: Reader) returns (format: u16, size: u32, width: u32, height: u32)
    requires r.Valid()
    modifies r
    ensures r.Valid() && r.kinds == old(r.kinds) + [K16, K32, K32, K32]
    ensures r.values == old(r.values) + [Number(format), Number(size), Number(width), Number(height)]
  {
    format := r.U16();
    size := r.U32();
    width := r.U32();
    height := r.U32();
  }

  method ReadImage(r: Reader) returns (width: u32, height: u32, depth: u32)
    requires r.Valid()
    modifies r
    ensures r.Valid() && r.kinds == old(r.kinds) + [K32, K32, K32]
    ensures r.values == old(r.values) + [Number(width), Number(height), Number(depth)]
  {
    width := r.U32();
    height := r.U32();
    depth := r.U32();
  }

  method ReadPlace(r: Reader) returns (parent: u32, associationType: u16, associationDesc: u32, sequence: u32)
    requires r.Valid()
    modifies r
    ensures r.Valid() && r.kinds == old(r.kinds) + [K32, K16, K32, K32]
    ensures r.values == old(r.values)
                        + [Number(parent), Number(associationType), Number(associationDesc), Number(sequence)]
  {
    parent := r.U32();
    associationType := r.U16();
    associationDesc := r.U32();
    sequence := r.U32();
  }

  method ReadThreeStrings(r: Reader) returns (a: seq<byte>, b: seq<byte>, c: seq<byte>)
    requires r.Valid()
    modifies r
    ensures r.Valid() && r.kinds == old(r.kinds) + [KText, KText, KText]
    ensures r.values == old(r.values) + [Utf8Text(a), Utf8Text(b), Utf8Text(c)]
  {
    a := r.String();
    b := r.String();
    c := r.String();
  }

  /** The parser on the encoding of any DeviceInfo, whatever follows it: every field of the result has the value
      that stands at its place in the standard's order. */
  method DeviceInfoReadsBack(f: seq<Field>, rest: seq<byte>) returns (di: DeviceInfo)
    requires AllEncodable(f)
    requires Kinds(f)
          == [K16, K32, K16, KText, K16, KArray, KArray, KArray, KArray, KArray, KText, KText, KText, KText]
    ensures Number(di.standardVersion) == f[0].Meaning() && Number(di.vendorExtensionID) == f[1].Meaning()
    ensures Number(di.vendorExtensionVersion) == f[2].Meaning() && Utf8Text(di.vendorExtensionDesc) == f[3].Meaning()
    ensures Number(di.functionalMode) == f[4].Meaning()
    ensures Numbers(di.operationsSupported) == f[5].Meaning() && Numbers(di.eventsSupported) == f[6].Meaning()
    ensures Numbers(di.devicePropertiesSupported) == f[7].Meaning()
    ensures Numbers(di.captureFormats) == f[8].Meaning() && Numbers(di.imageFormats) == f[9].Meaning()
    ensures Utf8Text(di.manufacturer) == f[10].Meaning() && Utf8Text(di.model) == f[11].Meaning()
    ensures Utf8Text(di.deviceVersion) == f[12].Meaning() && Utf8Text(di.serialNumber) == f[13].Meaning()
  {
    AtAppend(PutAll(f), rest);
    RoundTrip(PutAll(f) + rest, f);
    var parsed := ParseDeviceInfo(PutAll(f) + rest);
    di := parsed.value;
    forall i: nat | i < 14 ensures di.Values()[i] == f[i].Meaning() {
      MeaningAt(f, i);
    }
    PlacesOfDevice(di, f);
  }

  lemma PlacesOfDevice(di: DeviceInfo, f: seq<Field>)
    requires |f| == 14 && forall i: nat | i < 14 :: di.Values()[i] == f[i].Meaning()
    ensures Number(di.standardVersion) == f[0].Meaning() && Number(di.vendorExtensionID) == f[1].Meaning()
    ensures Number(di.vendorExtensionVersion) == f[2].Meaning() && Utf8Text(di.vendorExtensionDesc) == f[3].Meaning()
    ensures Number(di.functionalMode) == f[4].Meaning()
    ensures Numbers(di.operationsSupported) == f[5].Meaning() && Numbers(di.eventsSupported) == f[6].Meaning()
    ensures Numbers(di.devicePropertiesSupported) == f[7].Meaning()
    ensures Numbers(di.captureFormats) == f[8].Meaning() && Numbers(di.imageFormats) == f[9].Meaning()
    ensures Utf8Text(di.manufacturer) == f[10].Meaning() && Utf8Text(di.model) == f[11].Meaning()
    ensures Utf8Text(di.deviceVersion) == f[12].Meaning() && Utf8Text(di.serialNumber) == f[13].Meaning()
  {
    var v := di.Values();
    assert v[0] == f[0].Meaning() && v[1] == f[1].Meaning() && v[2] == f[2].Meaning() && v[3] == f[3].Meaning();
    assert v[4] == f[4].Meaning() && v[5] == f[5].Meaning() && v[6] == f[6].Meaning() && v[7] == f[7].Meaning();
    assert v[8] == f[8].Meaning() && v[9] == f[9].Meaning() && v[10] == f[10].Meaning() && v[11] == f[11].Meaning();
    assert v[12] == f[12].Meaning() && v[13] == f[13].Meaning();
  }

  lemma ObjectInfoOrder()
    ensures OBJECT_INFO
         == [K32, K16, K16, K32, K16, K32, K32, K32, K32, K32, K32, K32, K16, K32, K32, KText, KText, KText]
  {
  }

  /** The same for ObjectInfo up to Keywords. */
  method ObjectInfoReadsBack(f: seq<Field>, rest: seq<byte>) returns (obj: ObjectInfo)
    requires AllEncodable(f)
    requires Kinds(f)
          == [K32, K16, K16, K32, K16, K32, K32, K32, K32, K32, K32, K32, K16, K32, K32, KText, KText, KText]
    ensures Number(obj.storageID) == f[0].Meaning() && Number(obj.objectFormat) == f[1].Meaning()
    ensures Number(obj.protectionStatus) == f[2].Meaning() && Number(obj.objectCompressedSize) == f[3].Meaning()
    ensures Number(obj.thumbFormat) == f[4].Meaning() && Number(obj.thumbCompressedSize) == f[5].Meaning()
    ensures Number(obj.thumbPixWidth) == f[6].Meaning() && Number(obj.thumbPixHeight) == f[7].Meaning()
    ensures Number(obj.imagePixWidth) == f[8].Meaning() && Number(obj.imagePixHeight) == f[9].Meaning()
    ensures Number(obj.imageBitDepth) == f[10].Meaning() && Number(obj.parentObject) == f[11].Meaning()
    ensures Number(obj.associationType) == f[12].Meaning() && Number(obj.associationDesc) == f[13].Meaning()
    ensures Number(obj.sequenceNumber) == f[14].Meaning() && Utf8Text(obj.filename) == f[15].Meaning()
    ensures Utf8Text(obj.captureDate) == f[16].Meaning() && Utf8Text(obj.modificationDate) == f[17].Meaning()
  {
    ObjectInfoOrder();
    AtAppend(PutAll(f), rest);
    RoundTrip(PutAll(f) + rest, f);
    obj := ParseObjectInfo(PutAll(f) + rest);
    forall i: nat | i < 18 ensures obj.Values()[i] == f[i].Meaning() {
      MeaningAt(f, i);
    }
    PlacesOfObject(obj, f);
  }

  lemma PlacesOfObject(obj: ObjectInfo, f: seq<Field>)
    requires |f| == 18 && forall i: nat | i < 18 :: obj.Values()[i] == f[i].Meaning()
    ensures Number(obj.storageID) == f[0].Meaning() && Number(obj.objectFormat) == f[1].Meaning()
    ensures Number(obj.protectionStatus) == f[2].Meaning() && Number(obj.objectCompressedSize) == f[3].Meaning()
    ensures Number(obj.thumbFormat) == f[4].Meaning() && Number(obj.thumbCompressedSize) == f[5].Meaning()
    ensures Number(obj.thumbPixWidth) == f[6].Meaning() && Number(obj.thumbPixHeight) == f[7].Meaning()
    ensures Number(obj.imagePixWidth) == f[8].Meaning() && Number(obj.imagePixHeight) == f[9].Meaning()
    ensures Number(obj.imageBitDepth) == f[10].Meaning() && Number(obj.parentObject) == f[11].Meaning()
    ensures Number(obj.associationType) == f[12].Meaning() && Number(obj.associationDesc) == f[13].Meaning()
    ensures Number(obj.sequenceNumber) == f[14].Meaning() && Utf8Text(obj.filename) == f[15].Meaning()
    ensures Utf8Text(obj.captureDate) == f[16].Meaning() && Utf8Text(obj.modificationDate) == f[17].Meaning()
  {
    var v := obj.Values();
    assert v[0] == f[0].Meaning() && v[1] == f[1].Meaning() && v[2] == f[2].Meaning() && v[3] == f[3].Meaning();
    assert v[4] == f[4].Meaning() && v[5] == f[5].Meaning() && v[6] == f[6].Meaning() && v[7] == f[7].Meaning();
    assert v[8] == f[8].Meaning() && v[9] == f[9].Meaning() && v[10] == f[10].Meaning() && v[11] == f[11].Meaning();
    assert v[12] == f[12].Meaning() && v[13] == f[13].Meaning() && v[14] == f[14].Meaning();
    assert v[15] == f[15].Meaning() && v[16] == f[16].Meaning() && v[17] == f[17].Meaning();
  }

  // ---- The bare array of 32-bit words ----

  /** Reads every whole word of the buffer, the leading count included. */
  method ParseU32Array(data: seq<byte>) returns (out: seq<u32>)
    ensures out == WholeWords(data)
  {
    out := [];
    if |data| < 4 { return; }
    var count := |data| / 4;
    var i := 0;
    while i < count
      invariant 0 <= i <= count && |out| == i
      invariant out == WholeWords(data)[..i]
    {
      out := out + [Get32(data, 4 * i)];
      i := i + 1;
    }
  }

  function WholeWords(data: seq<byte>): seq<u32> {
    seq(|data| / 4, i requires 0 <= i < |data| / 4 => Get32(data, 4 * i))
  }

  /** On the wire form of a counted array the count comes back as the first element: the result is never the array
      itself. Up to three bytes behind the last word are ignored. */
  lemma {:induction false} CountIsAnElement(data: seq<byte>, count: u32, elems: seq<u32>, tail: seq<byte>)
    requires data == Put32(count) + (PutWords(elems) + tail) && count == |elems| && |tail| < 4
    ensures WholeWords(data) == [count] + elems
  {
    AtAppend(Put32(count), PutWords(elems) + tail);
    AtSplit(data, 4, PutWords(elems), tail);
    AtPut32(data, 0, count);
    WholeWordsCount(|elems|, |tail|);
    var words := WholeWords(data);
    forall k | 0 <= k < |elems| ensures words[k + 1] == elems[k] {
      AtPutWords(data, 4, elems, k);
    }
  }

  lemma WholeWordsCount(n: nat, tail: nat)
    requires tail < 4
    ensures (4 + 4 * n + tail) / 4 == n + 1
  {
  }
}
