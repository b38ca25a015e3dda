/** The object cache as it runs: binary searches, insertion in the middle, listing and loading on demand, each
    proved against its function on values. */
module ObjectStore {
  import opened Arith
  import opened Bytes
  import opened DeviceReply
  import opened UsbPort
  import opened ObjectCache
  import opened FolderListing
  import opened CacheRuns

  class PTPObjects {
    const mtpSupported: bool
    var objects: seq<PTPObject>
    var overridesOi: bool
    var storageIDs: seq<u32>
    var storageChanged: bool

    ghost predicate Valid()
      reads this
    {
      Good(objects)
    }

    ghost function AsCache(): Cache
      reads this
    {
      Cache(objects, overridesOi)
    }

    constructor (mtpSupported: bool, overridesOi: bool)
      ensures Valid() && AsCache() == Cache([], overridesOi) && this.mtpSupported == mtpSupported
    {
      this.mtpSupported, this.overridesOi := mtpSupported, overridesOi;
      objects, storageIDs, storageChanged := [], [], false;
    }

    /** ptp_find_object_in_cache: bsearch agrees with plain membership. */
    method Find(handle: u32) returns (r: Option<nat>)
      requires Valid()
      ensures r.Some? <==> Has(objects, handle)
      ensures r.Some? ==> r.value < |objects| && objects[r.value].oid == handle && r.value == Rank(objects, handle)
    {
      var l, u := 0, |objects|;
      while l < u
        invariant 0 <= l <= u <= |objects|
        invariant forall i | 0 <= i < l :: objects[i].oid < handle
        invariant forall i | u <= i < |objects| :: handle < objects[i].oid
      {
        var idx := (l + u) / 2;
        if handle < objects[idx].oid {
          u := idx;
        } else if handle > objects[idx].oid {
          l := idx + 1;
        } else {
          RankIs(objects, handle, idx);
          return Some(idx);
        }
      }
      r := None;
    }

    /** ptp_remove_object_from_cache */
    method RemoveFromCache(handle: u32) returns (ret: u16)
      requires Valid()
      modifies `objects
      ensures Valid() && objects == RemoveHandle(old(objects), handle)
      ensures ret == if old(Has(objects, handle)) then RC_OK else RC_GENERAL_ERROR
    {
      FoundIsHas(objects, handle);
      var at := Find(handle);
      if at == None { return RC_GENERAL_ERROR; }
      WithoutSorted(objects, at.value);
      WithoutKeepsInfo(objects, at.value);
      objects := objects[..at.value] + objects[at.value + 1..];
      ret := RC_OK;
    }

    /** ptp_deleteobject and ptp_moveobject: the object is forgotten when the device accepts. */
    method DeleteOrMove(handle: u32, answer: u16) returns (ret: u16)
      requires Valid()
      modifies `objects
      ensures Valid() && ret == answer
      ensures objects == if answer == RC_OK then RemoveHandle(old(objects), handle) else old(objects)
    {
      if answer != RC_OK { return answer; }
      var ignored := RemoveFromCache(handle);
      ret := RC_OK;
    }

    /** ptp_find_or_insert_object_in_cache: binary search, and insertion by moving the tail up. */
    method FindOrInsert(handle: u32) returns (ret: u16, index: nat)
      requires Valid()
      modifies `objects
      ensures Valid()
      ensures handle == 0 ==> ret == RC_GENERAL_ERROR && objects == old(objects)
      ensures handle != 0 ==>
                ret == RC_OK && objects == Insert(old(objects), handle) && index == Rank(old(objects), handle)
    {
      if handle == 0 { return RC_GENERAL_ERROR, 0; }
      if |objects| == 0 {
        objects := [NewObject(handle)];
        InsertKeepsInfo([], handle);
        return RC_OK, 0;
      }
      var begin, end, hit := SearchRange(handle);
      if hit {
        RankIs(objects, handle, begin);
        return RC_OK, begin;
      }
      if objects[begin].oid == handle {
        RankIs(objects, handle, begin);
        return RC_OK, begin;
      }
      if objects[end].oid == handle {
        RankIs(objects, handle, end);
        return RC_OK, end;
      }
      var insertat;
      if begin == 0 && handle < objects[0].oid {
        insertat := begin;
      } else if end == |objects| - 1 && handle > objects[end].oid {
        insertat := end + 1;
      } else {
        insertat := begin + 1;
      }
      RankIs(objects, handle, insertat);
      InsertSorted(objects, handle);
      InsertKeepsInfo(objects, handle);
      objects := objects[..insertat] + [NewObject(handle)] + objects[insertat..];
      ret, index := RC_OK, insertat;
    }

    /** The search loop: it stops on the handle or on two neighbours (or one end) between which it belongs. */
    method SearchRange(handle: u32) returns (begin: nat, end: nat, hit: bool)
      requires Valid() && |objects| > 0
      ensures begin <= end < |objects|
      ensures hit ==> objects[begin].oid == handle
      ensures !hit ==>
                && end - begin <= 1
                && (begin > 0 ==> objects[begin].oid < handle)
                && (end < |objects| - 1 && end > begin ==> handle < objects[end].oid)
                && (end == begin ==> begin == 0 && (|objects| > 1 ==> handle < objects[0].oid))
    {
      begin, end, hit := 0, |objects| - 1, false;
      while true
        invariant begin <= end < |objects|
        invariant begin > 0 ==> objects[begin].oid < handle
        invariant end < |objects| - 1 ==> handle < objects[end].oid
        invariant end == begin ==> begin == 0 && |objects| == 1
        decreases end - begin
      {
        var cursor := (end - begin) / 2 + begin;
        if objects[cursor].oid == handle {
          return cursor, end, true;
        }
        if objects[cursor].oid < handle {
          begin := cursor;
        } else {
          end := cursor;
        }
        if end - begin <= 1 { break; }
      }
    }

    /** Overrides ObjectInfo with the properties of the object. */
    static method Override(oi: ObjectInfo, props: seq<Prop>, handle: u32) returns (out: ObjectInfo)
      ensures out == ApplyProps(oi, props, handle)
    {
      out := oi;
      var i := 0;
      while i < |props|
        invariant 0 <= i <= |props|
        invariant out == ApplyProps(oi, props[..i], handle)
      {
        assert props[..i + 1][..i] == props[..i];
        out := ApplyProp(out, props[i], handle);
        i := i + 1;
      }
      assert props[..i] == props;
    }

    /** Takes over a fetched ObjectInfo. */
    method TakeInfo(k: nat, info: ObjectInfo, d: Replies)
      requires Valid() && k < |objects|
      modifies `objects
      ensures Valid()
      ensures objects == old(objects)[k := MergeInfo(old(objects), old(objects)[k], old(objects)[k].oid, info, d)]
    {
      var ob, handle := objects[k], objects[k].oid;
      var saveparent := 0;
      if ParentObjectLoaded in ob.flags { saveparent := ob.oi.parentObject; }
      var oi := info.(handle := handle);
      if oi.filename == None { oi := oi.(filename := Some("<none>")); }
      if ParentObjectLoaded in ob.flags { oi := oi.(parentObject := saveparent); }
      if oi.parentObject == handle { oi := oi.(parentObject := 0); }
      if oi.objectSize == UNKNOWN_SIZE && d.nikonSize.Some? { oi := oi.(objectSize := d.nikonSize.value); }
      if oi.parentObject == oi.storageID {
        var parent := Find(oi.parentObject);
        if parent == None { oi := oi.(parentObject := 0); }
      }
      var flags := if d.canonFlags.Some? then d.canonFlags.value else ob.canonFlags;
      var merged := PTPObject(ob.oid, ob.flags + INFO_FLAGS, oi, flags, ob.mtpProps);
      UpdateKeepsInfo(objects, k, merged);
      GrownSorted(objects, objects[k := merged], k);
      objects := objects[k := merged];
    }

    /** The second half of ptp_object_want: the MTP property list. */
    method TakeProps(k: nat, want: set<Flag>, d: Replies) returns (ret: u16)
      requires Valid() && k < |objects|
      modifies `objects
      ensures Valid()
      ensures WantOut(ret, AsCache(), Some(k)) == WantProps(old(AsCache()), mtpSupported, k, want, d)
    {
      WantPropsGrows(AsCache(), mtpSupported, k, want, d);
      WantPropsKeepsInfo(AsCache(), mtpSupported, k, want, d);
      GrownSorted(objects, WantProps(AsCache(), mtpSupported, k, want, d).cache.objects, k);
      var wanted, ob := want, objects[k];
      if !mtpSupported { wanted := wanted - {MtpPropListLoaded}; }
      if MtpPropListLoaded in wanted && MtpPropListLoaded !in ob.flags {
        if d.props.Ok? {
          ob := ob.(mtpProps := d.props.value, flags := ob.flags + {MtpPropListLoaded});
        }
        if MtpPropListLoaded in ob.flags && overridesOi {
          var oi := Override(ob.oi, ob.mtpProps, ob.oid);
          ob := ob.(oi := oi);
        }
      }
      objects := objects[k := ob];
      ret := if wanted <= ob.flags then RC_OK else RC_GENERAL_ERROR;
    }

    /** ptp_object_want */
    method ObjectWant(handle: u32, asked: set<Flag>, d: Replies) returns (ret: u16, index: Option<nat>)
      requires Valid()
      modifies `objects, `overridesOi
      ensures Valid()
      ensures WantOut(ret, AsCache(), index) == Want(old(AsCache()), mtpSupported, handle, asked, d)
    {
      var want := asked;
      if overridesOi { want := want + {MtpPropListLoaded}; }
      if handle == 0 { return RC_GENERAL_ERROR, None; }
      var k;
      ret, k := FindOrInsert(handle);
      index := Some(k);
      if objects[k].flags * want == want { return RC_OK, index; }
      if NeedsInfo(want, objects[k].flags) {
        if d.info.Err? {
          RankIs(objects, handle, k);
          var ignored := RemoveFromCache(handle);
          return d.info.code, None;
        }
        var info := d.info.value;
        TakeInfo(k, info, d);
        if info.objectSize == UNKNOWN_SIZE && d.nikonSize == None {
          want := want + {MtpPropListLoaded};
          overridesOi := true;
        }
      }
      ret := TakeProps(k, want, d);
    }

    /** The search of a listing: around the whole array, from the place of the last hit. */
    static method SearchFrom(objs: seq<PTPObject>, last: nat, handle: u32) returns (at: Option<nat>)
      requires Distinct(objs) && (last < |objs| || last == 0)
      ensures at == IndexOf(objs, handle)
    {
      var j := 0;
      while j < |objs|
        invariant 0 <= j <= |objs|
        invariant forall t | 0 <= t < j :: objs[Around(last, t, |objs|)].oid != handle
      {
        ModuloWrap(last + j, |objs|);
        var k := (last + j) % |objs|;
        if objs[k].oid == handle { return Some(k); }
        j := j + 1;
      }
      forall i | 0 <= i < |objs| ensures objs[i].oid != handle {
        var t := if i >= last then i - last else i + |objs| - last;
        assert Around(last, t, |objs|) == i;
      }
      at := None;
    }

    static function Around(last: nat, t: nat, n: nat): (k: nat)
      requires last <= n && t < n
      ensures k < n
    {
      if last + t < n then last + t else last + t - n
    }

    /** One handle that the device returned: an object not seen before goes behind the sorted part. */
    method AppendOne(handle: u32, folder: u32, storage: u32, last: nat) returns (at: Option<nat>)
      requires Distinct(objects) && (last < |objects| || last == 0)
      modifies `objects
      ensures objects == AddHandle(old(objects), handle, folder, storage)
      ensures |objects| >= |old(objects)|
      ensures at.Some? ==> at.value < |objects| && (old(Sorted(objects)) ==> Sorted(objects))
    {
      at := SearchFrom(objects, last, handle);
      if at == None {
        objects := objects + [Listed(handle, folder, storage)];
      } else {
        objects := objects[at.value := Relisted(objects[at.value], folder, storage)];
      }
    }

    /** The loop over the handles the device returned; the search goes on from the last hit. */
    method AppendListed(handles: seq<u32>, folder: u32, storage: u32) returns (changed: bool)
      requires Valid()
      modifies `objects
      ensures objects == AddHandles(old(objects), handles, folder, storage)
      ensures !changed ==> Sorted(objects)
    {
      ghost var start := objects;
      var last: nat, i := 0, 0;
      changed := false;
      while i < |handles|
        invariant 0 <= i <= |handles| && (last < |objects| || last == 0)
        invariant objects == AddHandles(start, handles[..i], folder, storage)
        invariant !changed ==> Sorted(objects)
      {
        assert handles[..i + 1][..i] == handles[..i];
        AddHandlesDistinct(start, handles[..i], folder, storage);
        var at := AppendOne(handles[i], folder, storage, last);
        if at == None {
          changed := true;
        } else {
          last := at.value;
        }
        i := i + 1;
      }
      assert handles[..i] == handles;
    }

    /** Adds what the device listed and sorts again if anything was new. */
    method AddListed(handles: seq<u32>, folder: u32, storage: u32)
      requires Valid()
      modifies `objects
      ensures Valid() && objects == SortByOid(AddHandles(old(objects), handles, folder, storage))
    {
      AddHandlesDistinct(objects, handles, folder, storage);
      AddHandlesKeepInfo(objects, handles, folder, storage);
      SortSorts(AddHandles(objects, handles, folder, storage));
      var changed := AppendListed(handles, folder, storage);
      if changed {
        objects := SortByOid(objects);
      } else {
        SortKeepsSorted(objects);
      }
    }

    /** The children of a folder that is listed already. */
    method CachedChildren(folder: u32) returns (children: seq<u32>)
      ensures children == ChildrenOf(objects, folder)
    {
      children := [];
      var i := 0;
      while i < |objects|
        invariant 0 <= i <= |objects|
        invariant children == ChildrenOf(objects[..i], folder)
      {
        assert objects[..i + 1][..i] == objects[..i];
        if objects[i].oi.parentObject == folder {
          children := children + [objects[i].oid];
        }
        i := i + 1;
      }
      assert objects[..i] == objects;
    }

    /** ptp_list_folder, for cameras without the vendor's fast listing. */
    method List(storage: u32, requested: u32, r: ListReplies) returns (ret: u16, children: seq<u32>)
      requires Valid()
      modifies `objects, `overridesOi
      ensures Valid()
      ensures ListOut(ret, AsCache(), children) == ListFolder(old(AsCache()), mtpSupported, storage, requested, r)
    {
      var handle := requested;
      if handle == SPECIAL { handle := 0; }
      if handle != 0 {
        var index;
        WantContract(AsCache(), mtpSupported, handle, {ObjectInfoLoaded}, r.folder);
        ret, index := ObjectWant(handle, {ObjectInfoLoaded}, r.folder);
        if ret != RC_OK { return ret, []; }
        var ob := objects[index.value];
        if ob.oi.objectFormat != OFC_ASSOCIATION { return RC_GENERAL_ERROR, []; }
        if DirectoryLoaded in ob.flags {
          children := CachedChildren(handle);
          return RC_OK, children;
        }
        MarkGood(objects, index.value);
        objects := objects[index.value := ob.(flags := ob.flags + {DirectoryLoaded})];
      }
      ret, children := ListFromDevice(handle, storage, r);
    }

    /** Asks for the handles, with fallbacks for cameras that do not support storage or folder. */
    method ListFromDevice(requested: u32, wantedStorage: u32, r: ListReplies) returns (ret: u16, children: seq<u32>)
      requires Valid()
      modifies `objects
      ensures Valid()
      ensures ListOut(ret, AsCache(), children) == ListHandles(old(AsCache()), requested, wantedStorage, r)
    {
      var handle, storage := requested, wantedStorage;
      var handles := r.first;
      if Unsupported(handles) {
        storage := SPECIAL;
        handles := r.anyStorage;
      }
      if Unsupported(handles) {
        handle, storage := SPECIAL, SPECIAL;
        handles := Ok(if r.everything.Ok? then r.everything.value else []);
      }
      if handles.Err? { return handles.code, []; }
      AddListed(handles.value, handle, storage);
      ret, children := RC_OK, handles.value;
    }

    /** The object part of handle_event_internal: a store came or went. */
    method StoresChange(ids: seq<u32>)
      modifies this
      ensures Valid() && objects == [] && storageIDs == ids && storageChanged && overridesOi == old(overridesOi)
    {
      storageIDs := ids;
      objects := [];
      storageChanged := true;
    }
  }
}
