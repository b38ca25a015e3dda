/** What ptp_object_want answers and leaves in the object, whatever was loaded before and whatever the device
    says. */
module Wanting {
  import opened Bytes
  import opened DeviceReply
  import opened UsbPort
  import opened ObjectCache
  import opened Placement

  /** The object of the handle before anything is fetched; a new one if it was not cached. */
  function Slot(c: Cache, handle: u32): PTPObject {
    Insert(c.objects, handle)[Rank(c.objects, handle)]
  }

  /** GetObjectInfo is sent: something of what it loads is wanted, and not all of that is there. */
  predicate FetchesInfo(c: Cache, handle: u32, asked: set<Flag>) {
    var want, flags := asked + (if c.overridesOi then {MtpPropListLoaded} else {}), Slot(c, handle).flags;
    && handle != 0 && !(want <= flags)
    && (ObjectInfoLoaded in asked || StorageIdLoaded in asked || ParentObjectLoaded in asked)
    && !({ObjectInfoLoaded, StorageIdLoaded, ParentObjectLoaded} <= flags)
  }

  /** The size does not fit the reply and nobody else knows it. */
  predicate SizeUnknown(d: Replies) {
    d.info.Ok? && d.info.value.objectSize == 0xffff_ffff && d.nikonSize == None
  }

  /** The MTP property list is taken over: the device has it, it was wanted, and it was not there. */
  predicate FetchesProps(c: Cache, mtpSupported: bool, handle: u32, asked: set<Flag>, d: Replies) {
    && mtpSupported && d.props.Ok? && MtpPropListLoaded !in Slot(c, handle).flags
    && (MtpPropListLoaded in asked || c.overridesOi || (FetchesInfo(c, handle, asked) && SizeUnknown(d)))
  }

  /** `oi` is the device's reply for the object, corrected: it carries the handle and some name; its parent is the
      one a listing tagged, else the reply's, but the root if that is the object itself or a storage's ID that is
      no cached object; its size is Nikon's where the reply has none. Everything else is the reply's. */
  ghost predicate AsFetched(oi: ObjectInfo, reply: ObjectInfo, was: PTPObject, objs: seq<PTPObject>, d: Replies) {
    var parent := if ParentObjectLoaded in was.flags then was.oi.parentObject else reply.parentObject;
    && oi.handle == was.oid
    && oi.filename == (if reply.filename == None then Some("<none>") else reply.filename)
    && oi.parentObject == (if parent == was.oid || (parent == reply.storageID && !Has(objs, parent)) then 0 else parent)
    && oi.objectSize == (if reply.objectSize == 0xffff_ffff && d.nikonSize.Some? then d.nikonSize.value
                         else reply.objectSize)
    && oi.storageID == reply.storageID && oi.objectFormat == reply.objectFormat
    && oi.protectionStatus == reply.protectionStatus
    && oi.associationType == reply.associationType && oi.associationDesc == reply.associationDesc
    && oi.captureDate == reply.captureDate && oi.modificationDate == reply.modificationDate
    && oi.keywords == reply.keywords
  }

  /** What a want answers, in every case: a general error for handle 0; the device's code, and no object, when
      GetObjectInfo was needed and failed; otherwise OK exactly when every wanted flag that the device can load
      is set. Property lists override from the first object of unknown size on, and for good. */
  lemma WantAnswers(c: Cache, mtpSupported: bool, handle: u32, asked: set<Flag>, d: Replies)
    ensures var w, k := Want(c, mtpSupported, handle, asked, d), Rank(c.objects, handle);
            var needed := (asked + (if w.cache.overridesOi then {MtpPropListLoaded} else {}))
                          - (if mtpSupported then {} else {MtpPropListLoaded});
      && (handle == 0 ==> w == WantOut(0x2002, c, None))
      && (FetchesInfo(c, handle, asked) && d.info.Err? ==>
           w.ret == d.info.code && w.index == None && w.cache.overridesOi == c.overridesOi)
      && (handle != 0 && !(FetchesInfo(c, handle, asked) && d.info.Err?) ==>
           && w.index == Some(k) && k < |w.cache.objects|
           && w.ret == (if needed <= w.cache.objects[k].flags then 0x2001 else 0x2002)
           && w.cache.overridesOi == (c.overridesOi || (FetchesInfo(c, handle, asked) && SizeUnknown(d))))
  {
    WantCases(c, mtpSupported, handle, asked, d);
  }

  /** The want without its early returns. */
  ghost function Continued(c: Cache, mtpSupported: bool, handle: u32, asked: set<Flag>, d: Replies): WantOut {
    var objs, k := Insert(c.objects, handle), Rank(c.objects, handle);
    var want := asked + (if c.overridesOi then {MtpPropListLoaded} else {});
    if !FetchesInfo(c, handle, asked) then WantProps(c.(objects := objs), mtpSupported, k, want, d)
    else if d.info.Err? then WantOut(d.info.code, c.(objects := Without(objs, k)), None)
    else
      var merged := objs[k := MergeInfo(objs, objs[k], handle, d.info.value, d)];
      if SizeUnknown(d) then WantProps(Cache(merged, true), mtpSupported, k, want + {MtpPropListLoaded}, d)
      else WantProps(c.(objects := merged), mtpSupported, k, want, d)
  }

  lemma WantCases(c: Cache, mtpSupported: bool, handle: u32, asked: set<Flag>, d: Replies)
    ensures handle != 0 ==> Want(c, mtpSupported, handle, asked, d) == Continued(c, mtpSupported, handle, asked, d)
  {
    var objs, k := Insert(c.objects, handle), Rank(c.objects, handle);
    assert objs[k := objs[k]] == objs;
    assert asked + {} == asked;
    var want := asked + (if c.overridesOi then {MtpPropListLoaded} else {});
    assert NeedsInfo(want, objs[k].flags) <==>
             && (ObjectInfoLoaded in asked || StorageIdLoaded in asked || ParentObjectLoaded in asked)
             && !({ObjectInfoLoaded, StorageIdLoaded, ParentObjectLoaded} <= objs[k].flags) by {
      SomeInfo(want);
    }
  }

  lemma SomeInfo(want: set<Flag>)
    ensures want * INFO_FLAGS != {}
       <==> ObjectInfoLoaded in want || StorageIdLoaded in want || ParentObjectLoaded in want
  {
    if ObjectInfoLoaded in want {
      assert ObjectInfoLoaded in want * INFO_FLAGS;
    } else if StorageIdLoaded in want {
      assert StorageIdLoaded in want * INFO_FLAGS;
    } else if ParentObjectLoaded in want {
      assert ParentObjectLoaded in want * INFO_FLAGS;
    }
  }

  /** What a want leaves in the object it keeps, exactly: its info is the old one or the corrected reply, then
      overridden by the property list if one came and property lists override; flags grow by what was fetched,
      and nothing else about the object changes. */
  lemma WantLeaves(c: Cache, mtpSupported: bool, handle: u32, asked: set<Flag>, d: Replies) returns (oi: ObjectInfo)
    requires Want(c, mtpSupported, handle, asked, d).index.Some?
    ensures var objs, k := Insert(c.objects, handle), Rank(c.objects, handle);
            var w, was := Want(c, mtpSupported, handle, asked, d), Slot(c, handle);
            var info, props := FetchesInfo(c, handle, asked), FetchesProps(c, mtpSupported, handle, asked, d);
      && k < |w.cache.objects|
      && (if info then d.info.Ok? && AsFetched(oi, d.info.value, was, objs, d) else oi == was.oi)
      && w.cache.objects[k] == PTPObject(
           handle,
           was.flags + (if info then {ObjectInfoLoaded, StorageIdLoaded, ParentObjectLoaded} else {})
                     + (if props then {MtpPropListLoaded} else {}),
           if props && w.cache.overridesOi then ApplyProps(oi, d.props.value, handle) else oi,
           if info && d.canonFlags.Some? then d.canonFlags.value else was.canonFlags,
           if props then d.props.value else was.mtpProps)
  {
    WantCases(c, mtpSupported, handle, asked, d);
    var objs, k := Insert(c.objects, handle), Rank(c.objects, handle);
    var was, want := objs[k], asked + (if c.overridesOi then {MtpPropListLoaded} else {});
    if FetchesInfo(c, handle, asked) {
      var ob := MergeInfo(objs, was, handle, d.info.value, d);
      oi := ob.oi;
      MergedAsFetched(objs, was, d.info.value, d);
      var merged := objs[k := ob];
      if SizeUnknown(d) {
        PropsLeave(Cache(merged, true), mtpSupported, k, want + {MtpPropListLoaded}, d);
      } else {
        PropsLeave(c.(objects := merged), mtpSupported, k, want, d);
      }
    } else {
      oi := was.oi;
      PropsLeave(c.(objects := objs), mtpSupported, k, want, d);
    }
  }

  lemma MergedAsFetched(objs: seq<PTPObject>, was: PTPObject, reply: ObjectInfo, d: Replies)
    ensures var ob := MergeInfo(objs, was, was.oid, reply, d);
      && AsFetched(ob.oi, reply, was, objs, d) && ob.oid == was.oid && ob.mtpProps == was.mtpProps
      && ob.flags == was.flags + {ObjectInfoLoaded, StorageIdLoaded, ParentObjectLoaded}
      && ob.canonFlags == if d.canonFlags.Some? then d.canonFlags.value else was.canonFlags
  {
  }

  /** What the second half of a want leaves in the object. */
  lemma PropsLeave(c: Cache, mtpSupported: bool, k: nat, want: set<Flag>, d: Replies)
    requires k < |c.objects|
    ensures var w, was := WantProps(c, mtpSupported, k, want, d), c.objects[k];
            var props := mtpSupported && d.props.Ok? && MtpPropListLoaded in want && MtpPropListLoaded !in was.flags;
      && w.cache.overridesOi == c.overridesOi && k < |w.cache.objects|
      && w.cache.objects[k] == PTPObject(
           was.oid, was.flags + (if props then {MtpPropListLoaded} else {}),
           if props && c.overridesOi then ApplyProps(was.oi, d.props.value, was.oid) else was.oi,
           was.canonFlags, if props then d.props.value else was.mtpProps)
  {
    assert c.objects[k].flags + {} == c.objects[k].flags;
  }
}
