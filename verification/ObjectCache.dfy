/** The cache of camera objects (ptp.c): an array sorted by handle, found by binary search, filled on demand. */
module ObjectCache {
  import opened Arith
  import opened Bytes
  import opened DeviceReply
  import opened UsbPort

  const SPECIAL: u32 := 0xffff_ffff
  const RC_PARAMETER_NOT_SUPPORTED: u16 := 0x2006
  const OFC_ASSOCIATION: u16 := 0x3001
  const UNKNOWN_SIZE := 0xffff_ffff

  datatype Flag =
    | ObjectInfoLoaded | CanonFlagsLoaded | MtpPropListLoaded
    | DirectoryLoaded | ParentObjectLoaded | StorageIdLoaded

  /** What one GetObjectInfo loads. */
  const INFO_FLAGS: set<Flag> := {ObjectInfoLoaded, StorageIdLoaded, ParentObjectLoaded}

  datatype ObjectInfo = ObjectInfo(
    handle: u32, storageID: u32, objectFormat: u16, protectionStatus: u16, objectSize: nat, parentObject: u32,
    associationType: u16, associationDesc: u32, filename: Option<string>,
    captureDate: int, modificationDate: int, keywords: Option<string>)

  datatype PropValue =
    | StorageID(id: u32) | ObjectFormat(format: u16) | ProtectionStatus(status: u16)
    | ObjectSize(size: nat) | ObjectSizeOfOtherType | AssociationType(kind: u16) | AssociationDesc(desc: u32)
    | FileName(name: Option<string>) | DateCreated(created: int) | DateModified(modified: int)
    | Keywords(words: Option<string>) | ParentObject(parent: u32) | OtherProp

  datatype Prop = Prop(handle: u32, value: PropValue)

  datatype PTPObject = PTPObject(
    oid: u32, flags: set<Flag>, oi: ObjectInfo, canonFlags: u32, mtpProps: seq<Prop>)

  const NO_INFO := ObjectInfo(0, 0, 0, 0, 0, 0, 0, 0, None, 0, 0, None)

  /** A zeroed slot that got its handle. */
  function NewObject(handle: u32): PTPObject {
    PTPObject(handle, {}, NO_INFO.(handle := handle), 0, [])
  }

  // ---- The sorted array ----

  ghost predicate Sorted(objs: seq<PTPObject>) {
    forall i, j | 0 <= i < j < |objs| :: objs[i].oid < objs[j].oid
  }

  ghost predicate Has(objs: seq<PTPObject>, handle: u32) {
    exists i :: 0 <= i < |objs| && objs[i].oid == handle
  }

  ghost function Oids(objs: seq<PTPObject>): set<u32> {
    set i | 0 <= i < |objs| :: objs[i].oid
  }

  /** How many handles at the front are smaller. */
  function Rank(objs: seq<PTPObject>, handle: u32): (k: nat)
    ensures k <= |objs|
  {
    if objs == [] || objs[0].oid >= handle then 0 else 1 + Rank(objs[1..], handle)
  }

  lemma {:induction false} RankSplits(objs: seq<PTPObject>, handle: u32)
    requires Sorted(objs)
    ensures var k := Rank(objs, handle);
      && (forall i | 0 <= i < k :: objs[i].oid < handle)
      && (forall i | k <= i < |objs| :: objs[i].oid >= handle)
  {
    if objs != [] && objs[0].oid < handle {
      var rest := objs[1..];
      assert forall i | 0 <= i < |rest| :: rest[i] == objs[i + 1];
      RankSplits(rest, handle);
      forall i | 0 < i < |objs|
        ensures i < Rank(objs, handle) <==> objs[i].oid < handle
      {
        assert rest[i - 1] == objs[i];
      }
    }
  }

  lemma RankIs(objs: seq<PTPObject>, handle: u32, k: nat)
    requires Sorted(objs) && k <= |objs|
    requires k > 0 ==> objs[k - 1].oid < handle
    requires k < |objs| ==> handle <= objs[k].oid
    ensures Rank(objs, handle) == k
  {
    RankSplits(objs, handle);
  }

  /** The handle stands where its rank says. */
  predicate Found(objs: seq<PTPObject>, handle: u32) {
    Rank(objs, handle) < |objs| && objs[Rank(objs, handle)].oid == handle
  }

  lemma FoundIsHas(objs: seq<PTPObject>, handle: u32)
    requires Sorted(objs)
    ensures Found(objs, handle) <==> Has(objs, handle)
  {
    RankSplits(objs, handle);
  }

  /** The array with the handle in it: unchanged if it was there, else with a new object in its place. */
  function Insert(objs: seq<PTPObject>, handle: u32): (r: seq<PTPObject>)
    ensures Rank(objs, handle) < |r| && r[Rank(objs, handle)].oid == handle
  {
    var k := Rank(objs, handle);
    if Found(objs, handle) then objs else objs[..k] + [NewObject(handle)] + objs[k..]
  }

  lemma InsertSorted(objs: seq<PTPObject>, handle: u32)
    requires Sorted(objs)
    ensures Sorted(Insert(objs, handle))
  {
    RankSplits(objs, handle);
  }

  lemma InsertOids(objs: seq<PTPObject>, handle: u32)
    ensures Oids(Insert(objs, handle)) == Oids(objs) + {handle}
  {
    var r, k := Insert(objs, handle), Rank(objs, handle);
    assert r[k].oid == handle;
    if !Found(objs, handle) {
      forall oid | oid in Oids(objs) ensures oid in Oids(r) {
        var i :| 0 <= i < |objs| && objs[i].oid == oid;
        assert r[if i < k then i else i + 1].oid == oid;
      }
      assert forall i | 0 <= i < |r| && i != k :: r[i] == objs[if i < k then i else i - 1];
    }
  }

  /** Insertion refines set insertion: the handles become the old ones and the new one, order and strictness
      are kept, every other object is the same, and a new slot has no flags. */
  lemma InsertRefinesSet(objs: seq<PTPObject>, handle: u32)
    requires Sorted(objs)
    ensures var r, k := Insert(objs, handle), Rank(objs, handle);
      && Sorted(r) && Oids(r) == Oids(objs) + {handle}
      && (Has(objs, handle) ==> r == objs)
      && (!Has(objs, handle) ==>
           && r[k] == PTPObject(handle, {}, ObjectInfo(handle, 0, 0, 0, 0, 0, 0, 0, None, 0, 0, None), 0, [])
           && Without(r, k) == objs)
  {
    FoundIsHas(objs, handle);
    InsertSorted(objs, handle);
    InsertOids(objs, handle);
    InsertThenRemove(objs, handle);
  }

  function Without(objs: seq<PTPObject>, k: nat): seq<PTPObject>
    requires k < |objs|
  {
    objs[..k] + objs[k + 1..]
  }

  lemma WithoutSorted(objs: seq<PTPObject>, k: nat)
    requires Sorted(objs) && k < |objs|
    ensures Sorted(Without(objs, k)) && Oids(Without(objs, k)) == Oids(objs) - {objs[k].oid}
  {
    var r := Without(objs, k);
    forall oid | oid in Oids(objs) - {objs[k].oid} ensures oid in Oids(r) {
      var i :| 0 <= i < |objs| && objs[i].oid == oid;
      assert r[if i < k then i else i - 1].oid == oid;
    }
  }

  /** Removing what an insertion added gives back the other objects exactly. */
  lemma {:induction false} InsertThenRemove(objs: seq<PTPObject>, handle: u32)
    ensures var k := Rank(objs, handle);
      Without(Insert(objs, handle), k) == if Found(objs, handle) then Without(objs, k) else objs
  {
  }

  // ---- ptp_object_want on values ----

  /** What the device answers to the requests of one object_want: GetObjectInfo, the vendors' own size and
      flags requests (None when unsupported or failed), and the MTP property list. */
  datatype Replies = Replies(info: Reply<ObjectInfo>, nikonSize: Option<nat>, canonFlags: Option<u32>,
                             props: Reply<seq<Prop>>)

  /** `overridesOi`: property lists override ObjectInfo. */
  datatype Cache = Cache(objects: seq<PTPObject>, overridesOi: bool)

  /** A fetched ObjectInfo put into the object, with the corrections for known camera faults. */
  ghost function MergeInfo(objs: seq<PTPObject>, ob: PTPObject, handle: u32, info: ObjectInfo, d: Replies): PTPObject {
    var named := info.(handle := handle, filename := if info.filename == None then Some("<none>") else info.filename);
    var kept := if ParentObjectLoaded in ob.flags then ob.oi.parentObject else info.parentObject;
    var parent := if kept == handle then 0 else kept;
    var rooted := if parent == info.storageID && !Has(objs, parent) then 0 else parent;
    var size := if info.objectSize == UNKNOWN_SIZE && d.nikonSize.Some? then d.nikonSize.value else info.objectSize;
    PTPObject(ob.oid, ob.flags + INFO_FLAGS, named.(parentObject := rooted, objectSize := size),
              if d.canonFlags.Some? then d.canonFlags.value else ob.canonFlags, ob.mtpProps)
  }

  function ApplyProp(oi: ObjectInfo, p: Prop, handle: u32): ObjectInfo {
    if p.handle != handle then oi else
    match p.value
    case StorageID(id) => oi.(storageID := id)
    case ObjectFormat(format) => oi.(objectFormat := format)
    case ProtectionStatus(status) => oi.(protectionStatus := status)
    case ObjectSize(size) => oi.(objectSize := size)
    case AssociationType(kind) => oi.(associationType := kind)
    case AssociationDesc(desc) => oi.(associationDesc := desc)
    case FileName(name) => if name.Some? then oi.(filename := name) else oi
    case DateCreated(t) => oi.(captureDate := t)
    case DateModified(t) => oi.(modificationDate := t)
    case Keywords(words) => if words.Some? then oi.(keywords := words) else oi
    case ParentObject(parent) => oi.(parentObject := parent)
    case _ => oi
  }

  function ApplyProps(oi: ObjectInfo, props: seq<Prop>, handle: u32): ObjectInfo {
    if props == [] then oi
    else ApplyProp(ApplyProps(oi, props[..|props| - 1], handle), props[|props| - 1], handle)
  }

  /** The property list fetched, and applied if it overrides ObjectInfo. */
  function MergeProps(ob: PTPObject, handle: u32, overrides: bool, d: Replies): PTPObject {
    match d.props
    case Err(_) => ob
    case Ok(props) =>
      ob.(mtpProps := props, flags := ob.flags + {MtpPropListLoaded},
          oi := if overrides then ApplyProps(ob.oi, props, handle) else ob.oi)
  }

  predicate NeedsInfo(want: set<Flag>, flags: set<Flag>) {
    want * INFO_FLAGS != {} && !(INFO_FLAGS <= flags)
  }

  datatype WantOut = WantOut(ret: u16, cache: Cache, index: Option<nat>)

  ghost function Want(c: Cache, mtpSupported: bool, handle: u32, asked: set<Flag>, d: Replies): WantOut {
    if handle == 0 then WantOut(RC_GENERAL_ERROR, c, None) else
    var want := if c.overridesOi then asked + {MtpPropListLoaded} else asked;
    var objs, k := Insert(c.objects, handle), Rank(c.objects, handle);
    if want <= objs[k].flags then WantOut(RC_OK, c.(objects := objs), Some(k))
    else if !NeedsInfo(want, objs[k].flags) then
      WantProps(c.(objects := objs), mtpSupported, k, want, d)
    else
      match d.info
      case Err(code) => WantOut(code, c.(objects := Without(objs, k)), None)
      case Ok(info) =>
        var merged := objs[k := MergeInfo(objs, objs[k], handle, info, d)];
        if info.objectSize == UNKNOWN_SIZE && d.nikonSize == None then
          WantProps(Cache(merged, true), mtpSupported, k, want + {MtpPropListLoaded}, d)
        else WantProps(c.(objects := merged), mtpSupported, k, want, d)
  }

  /** The second half of object_want: the property list, and whether everything wanted is there. */
  ghost function WantProps(c: Cache, mtpSupported: bool, k: nat, want: set<Flag>, d: Replies): WantOut
    requires k < |c.objects|
  {
    var wanted := if mtpSupported then want else want - {MtpPropListLoaded};
    var ob := c.objects[k];
    var ob' := if MtpPropListLoaded in wanted && MtpPropListLoaded !in ob.flags
               then MergeProps(ob, ob.oid, c.overridesOi, d) else ob;
    WantOut(if wanted <= ob'.flags then RC_OK else RC_GENERAL_ERROR, c.(objects := c.objects[k := ob']), Some(k))
  }

  /** `b` is `a` except at place `k`, where the handle is the same and flags were only added. */
  ghost predicate OnlyGrown(a: seq<PTPObject>, b: seq<PTPObject>, k: nat) {
    && |b| == |a| && k < |a|
    && (forall i | 0 <= i < |a| && i != k :: b[i] == a[i])
    && b[k].oid == a[k].oid && a[k].flags <= b[k].flags
  }

  lemma GrownSorted(a: seq<PTPObject>, b: seq<PTPObject>, k: nat)
    requires Sorted(a) && OnlyGrown(a, b, k)
    ensures Sorted(b) && Oids(b) == Oids(a)
  {
    assert forall i | 0 <= i < |a| :: b[i].oid == a[i].oid;
  }

  lemma WantPropsGrows(c: Cache, mtpSupported: bool, k: nat, want: set<Flag>, d: Replies)
    requires k < |c.objects|
    ensures var w := WantProps(c, mtpSupported, k, want, d);
      && OnlyGrown(c.objects, w.cache.objects, k) && w.index == Some(k)
      && (w.ret == RC_OK ==> want - {MtpPropListLoaded} <= w.cache.objects[k].flags)
      && (w.ret == RC_OK && mtpSupported ==> want <= w.cache.objects[k].flags)
  {
  }

  /** The contract of object_want: on OK every requested flag is set, the MTP property list when the device
      has it; flags of the object only grow and no other object changes; a failed GetObjectInfo leaves
      exactly the other objects; the array stays sorted in every case. */
  lemma WantContract(c: Cache, mtpSupported: bool, handle: u32, asked: set<Flag>, d: Replies)
    requires Sorted(c.objects)
    ensures var w, k := Want(c, mtpSupported, handle, asked, d), Rank(c.objects, handle);
      && Sorted(w.cache.objects)
      && (w.index.Some? ==>
           && w.index == Some(k) && OnlyGrown(Insert(c.objects, handle), w.cache.objects, k)
           && w.cache.objects[k].oid == handle)
      && (w.index == None ==>
           && w.ret != RC_OK
           && w.cache.objects == if handle != 0 && Found(c.objects, handle) then Without(c.objects, k) else c.objects)
      && (w.ret == RC_OK ==>
           && w.index.Some? && asked - {MtpPropListLoaded} <= w.cache.objects[k].flags
           && (mtpSupported ==> asked <= w.cache.objects[k].flags))
  {
    if Want(c, mtpSupported, handle, asked, d).index.Some? {
      InsertSorted(c.objects, handle);
      WantGrows(c, mtpSupported, handle, asked, d);
      GrownSorted(Insert(c.objects, handle), Want(c, mtpSupported, handle, asked, d).cache.objects,
                  Rank(c.objects, handle));
    } else {
      WantFails(c, mtpSupported, handle, asked, d);
    }
  }

  lemma WantFails(c: Cache, mtpSupported: bool, handle: u32, asked: set<Flag>, d: Replies)
    requires Sorted(c.objects) && Want(c, mtpSupported, handle, asked, d).index == None
    ensures var w := Want(c, mtpSupported, handle, asked, d);
      && w.ret != RC_OK && Sorted(w.cache.objects)
      && w.cache.objects == if handle != 0 && Found(c.objects, handle)
                            then Without(c.objects, Rank(c.objects, handle)) else c.objects
  {
    if handle != 0 {
      InsertThenRemove(c.objects, handle);
      FailedInfoRemoves(c, mtpSupported, handle, asked, d);
      if Found(c.objects, handle) {
        WithoutSorted(c.objects, Rank(c.objects, handle));
      }
    }
  }

  lemma FailedInfoRemoves(c: Cache, mtpSupported: bool, handle: u32, asked: set<Flag>, d: Replies)
    requires handle != 0 && Want(c, mtpSupported, handle, asked, d).index == None
    ensures var w := Want(c, mtpSupported, handle, asked, d);
      w.ret != RC_OK && w.cache.objects == Without(Insert(c.objects, handle), Rank(c.objects, handle))
  {
  }

  lemma WantGrows(c: Cache, mtpSupported: bool, handle: u32, asked: set<Flag>, d: Replies)
    requires Want(c, mtpSupported, handle, asked, d).index.Some?
    ensures var w, k := Want(c, mtpSupported, handle, asked, d), Rank(c.objects, handle);
      && w.index == Some(k) && OnlyGrown(Insert(c.objects, handle), w.cache.objects, k)
      && (w.ret == RC_OK ==>
           && asked - {MtpPropListLoaded} <= w.cache.objects[k].flags
           && (mtpSupported ==> asked <= w.cache.objects[k].flags))
  {
    var want := if c.overridesOi then asked + {MtpPropListLoaded} else asked;
    var objs, k := Insert(c.objects, handle), Rank(c.objects, handle);
    if !(want <= objs[k].flags) {
      if !NeedsInfo(want, objs[k].flags) {
        WantPropsGrows(c.(objects := objs), mtpSupported, k, want, d);
      } else {
        var info := d.info.value;
        var merged := objs[k := MergeInfo(objs, objs[k], handle, info, d)];
        WantPropsGrows(Cache(merged, true), mtpSupported, k, want + {MtpPropListLoaded}, d);
        WantPropsGrows(c.(objects := merged), mtpSupported, k, want, d);
      }
    }
  }
}
