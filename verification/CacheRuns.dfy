/** The object cache over whole runs: it stays sorted whatever the device answers. */
module CacheRuns {
  import opened Bytes
  import opened DeviceReply
  import opened UsbPort
  import opened ObjectCache
  import opened FolderListing

  // ---- Every run keeps the array sorted ----

  /** `Remove`: the device accepted to delete or move the object. `StoresChanged`: a store came or went. */
  datatype CacheOp =
    | ListOp(storage: u32, folder: u32, answers: ListReplies)
    | WantOp(handle: u32, asked: set<Flag>, replies: Replies)
    | Remove(handle: u32)
    | StoresChanged

  function RemoveHandle(objs: seq<PTPObject>, handle: u32): seq<PTPObject> {
    if Found(objs, handle) then Without(objs, Rank(objs, handle)) else objs
  }

  lemma KeptByRemoval(objs: seq<PTPObject>, k: nat, ob: PTPObject)
    requires Sorted(objs) && k < |objs| && ob in Elements(objs) && ob.oid != objs[k].oid
    ensures ob in Elements(Without(objs, k))
  {
    var i :| 0 <= i < |objs| && objs[i] == ob;
    assert Without(objs, k)[if i < k then i else i - 1] == ob;
  }

  lemma LeftByRemoval(objs: seq<PTPObject>, k: nat, ob: PTPObject)
    requires Sorted(objs) && k < |objs| && ob in Elements(Without(objs, k))
    ensures ob in Elements(objs) && ob.oid != objs[k].oid
  {
    var r := Without(objs, k);
    var i :| 0 <= i < |r| && r[i] == ob;
    assert objs[if i < k then i else i + 1] == ob;
  }

  /** Removing takes exactly the object of the handle out: the handle is gone, every other object is kept as it
      was, and the array stays sorted. */
  lemma RemoveExactly(objs: seq<PTPObject>, handle: u32)
    requires Sorted(objs)
    ensures var r := RemoveHandle(objs, handle);
      Sorted(r) && forall ob :: ob in Elements(r) <==> ob in Elements(objs) && ob.oid != handle
  {
    var r, k := RemoveHandle(objs, handle), Rank(objs, handle);
    FoundIsHas(objs, handle);
    if Found(objs, handle) {
      WithoutSorted(objs, k);
      forall ob ensures ob in Elements(r) <==> ob in Elements(objs) && ob.oid != handle {
        if ob in Elements(r) {
          LeftByRemoval(objs, k, ob);
        } else if ob in Elements(objs) && ob.oid != handle {
          KeptByRemoval(objs, k, ob);
        }
      }
    }
  }

  ghost function Apply(c: Cache, mtpSupported: bool, op: CacheOp): Cache {
    match op
    case ListOp(storage, folder, r) => ListFolder(c, mtpSupported, storage, folder, r).cache
    case WantOp(handle, asked, d) => Want(c, mtpSupported, handle, asked, d).cache
    case Remove(handle) => c.(objects := RemoveHandle(c.objects, handle))
    case StoresChanged => c.(objects := [])
  }

  ghost function After(c: Cache, mtpSupported: bool, ops: seq<CacheOp>): Cache
    decreases ops
  {
    if ops == [] then c else After(Apply(c, mtpSupported, ops[0]), mtpSupported, ops[1..])
  }

  /** Info that is loaded at all is loaded whole. */
  ghost predicate InfoWhole(objs: seq<PTPObject>) {
    forall ob | ob in Elements(objs) :: ObjectInfoLoaded in ob.flags ==> INFO_FLAGS <= ob.flags
  }

  ghost predicate Good(objs: seq<PTPObject>) {
    Sorted(objs) && InfoWhole(objs)
  }

  lemma UpdatedElements(objs: seq<PTPObject>, k: nat, ob: PTPObject)
    requires k < |objs|
    ensures Elements(objs[k := ob]) <= Elements(objs) + {ob}
    ensures ob in Elements(objs[k := ob])
    ensures forall x | x in Elements(objs) && x != objs[k] :: x in Elements(objs[k := ob])
  {
    var r := objs[k := ob];
    assert r[k] == ob;
    forall x | x in Elements(objs) && x != objs[k] ensures x in Elements(r) {
      var i :| 0 <= i < |objs| && objs[i] == x;
      assert r[i] == x;
    }
  }

  lemma InsertKeepsInfo(objs: seq<PTPObject>, handle: u32)
    requires InfoWhole(objs)
    ensures InfoWhole(Insert(objs, handle))
  {
    var r, k := Insert(objs, handle), Rank(objs, handle);
    forall x | x in Elements(r) ensures ObjectInfoLoaded in x.flags ==> INFO_FLAGS <= x.flags {
      var i :| 0 <= i < |r| && r[i] == x;
      if x != NewObject(handle) {
        assert x in Elements(objs) by {
          assert x == if Found(objs, handle) || i < k then objs[i] else objs[i - 1];
        }
      }
    }
  }

  lemma WithoutKeepsInfo(objs: seq<PTPObject>, k: nat)
    requires InfoWhole(objs) && k < |objs|
    ensures InfoWhole(Without(objs, k))
  {
    var r := Without(objs, k);
    forall x | x in Elements(r) ensures x in Elements(objs) {
      var i :| 0 <= i < |r| && r[i] == x;
      assert x == objs[if i < k then i else i + 1];
    }
  }

  lemma UpdateKeepsInfo(objs: seq<PTPObject>, k: nat, ob: PTPObject)
    requires InfoWhole(objs) && k < |objs|
    requires ObjectInfoLoaded in ob.flags ==> INFO_FLAGS <= ob.flags
    ensures InfoWhole(objs[k := ob])
  {
    UpdatedElements(objs, k, ob);
  }

  lemma ElementInfo(objs: seq<PTPObject>, k: nat)
    requires InfoWhole(objs) && k < |objs|
    ensures ObjectInfoLoaded in objs[k].flags ==> INFO_FLAGS <= objs[k].flags
  {
    assert objs[k] in Elements(objs);
  }

  lemma WantPropsKeepsInfo(c: Cache, mtpSupported: bool, k: nat, want: set<Flag>, d: Replies)
    requires InfoWhole(c.objects) && k < |c.objects|
    ensures InfoWhole(WantProps(c, mtpSupported, k, want, d).cache.objects)
  {
    ElementInfo(c.objects, k);
    UpdateKeepsInfo(c.objects, k, WantProps(c, mtpSupported, k, want, d).cache.objects[k]);
  }

  lemma WantKeepsInfo(c: Cache, mtpSupported: bool, handle: u32, asked: set<Flag>, d: Replies)
    requires InfoWhole(c.objects)
    ensures InfoWhole(Want(c, mtpSupported, handle, asked, d).cache.objects)
  {
    if handle != 0 {
      InsertKeepsInfo(c.objects, handle);
      var want := if c.overridesOi then asked + {MtpPropListLoaded} else asked;
      var objs, k := Insert(c.objects, handle), Rank(c.objects, handle);
      if !(want <= objs[k].flags) {
        if !NeedsInfo(want, objs[k].flags) {
          WantPropsKeepsInfo(c.(objects := objs), mtpSupported, k, want, d);
        } else if d.info.Err? {
          WithoutKeepsInfo(objs, k);
        } else {
          var ob := MergeInfo(objs, objs[k], handle, d.info.value, d);
          UpdateKeepsInfo(objs, k, ob);
          WantPropsKeepsInfo(Cache(objs[k := ob], true), mtpSupported, k, want + {MtpPropListLoaded}, d);
          WantPropsKeepsInfo(c.(objects := objs[k := ob]), mtpSupported, k, want, d);
        }
      }
    }
  }

  lemma AppendKeepsInfo(objs: seq<PTPObject>, ob: PTPObject)
    requires InfoWhole(objs) && ObjectInfoLoaded !in ob.flags
    ensures InfoWhole(objs + [ob])
  {
    forall x | x in Elements(objs + [ob]) ensures x in Elements(objs) || x == ob {
      var i :| 0 <= i < |objs + [ob]| && (objs + [ob])[i] == x;
      if i < |objs| {
        assert objs[i] == x;
      }
    }
  }

  lemma {:induction false} AddHandlesKeepInfo(objs: seq<PTPObject>, handles: seq<u32>, folder: u32, storage: u32)
    requires InfoWhole(objs)
    ensures InfoWhole(AddHandles(objs, handles, folder, storage))
  {
    if handles != [] {
      var before := AddHandles(objs, handles[..|handles| - 1], folder, storage);
      var h := handles[|handles| - 1];
      AddHandlesKeepInfo(objs, handles[..|handles| - 1], folder, storage);
      match IndexOf(before, h)
      case Some(i) =>
        ElementInfo(before, i);
        UpdateKeepsInfo(before, i, Relisted(before[i], folder, storage));
      case None =>
        AppendKeepsInfo(before, Listed(h, folder, storage));
    }
  }

  lemma ListHandlesGood(c: Cache, folder: u32, storage: u32, r: ListReplies)
    requires Good(c.objects)
    ensures Good(ListHandles(c, folder, storage, r).cache.objects)
  {
    var asked := AskHandles(folder, storage, r);
    if asked.handles.Ok? {
      var added := AddHandles(c.objects, asked.handles.value, asked.folder, asked.storage);
      AddHandlesDistinct(c.objects, asked.handles.value, asked.folder, asked.storage);
      AddHandlesKeepInfo(c.objects, asked.handles.value, asked.folder, asked.storage);
      SortSorts(added);
    }
  }

  lemma MarkGood(objs: seq<PTPObject>, k: nat)
    requires Good(objs) && k < |objs|
    ensures Good(objs[k := MarkDirectory(objs[k])])
  {
    ElementInfo(objs, k);
    UpdateKeepsInfo(objs, k, MarkDirectory(objs[k]));
    GrownSorted(objs, objs[k := MarkDirectory(objs[k])], k);
  }

  lemma WantGood(c: Cache, mtpSupported: bool, handle: u32, asked: set<Flag>, d: Replies)
    requires Good(c.objects)
    ensures Good(Want(c, mtpSupported, handle, asked, d).cache.objects)
  {
    WantContract(c, mtpSupported, handle, asked, d);
    WantKeepsInfo(c, mtpSupported, handle, asked, d);
  }

  lemma ListGood(c: Cache, mtpSupported: bool, storage: u32, handle: u32, r: ListReplies)
    requires Good(c.objects)
    ensures Good(ListFolder(c, mtpSupported, storage, handle, r).cache.objects)
  {
    if handle == 0 || handle == SPECIAL {
      ListHandlesGood(c, 0, storage, r);
    } else {
      var w := Want(c, mtpSupported, handle, {ObjectInfoLoaded}, r.folder);
      WantGood(c, mtpSupported, handle, {ObjectInfoLoaded}, r.folder);
      WantContract(c, mtpSupported, handle, {ObjectInfoLoaded}, r.folder);
      if w.ret == RC_OK {
        var k := w.index.value;
        MarkGood(w.cache.objects, k);
        var marked := w.cache.(objects := w.cache.objects[k := MarkDirectory(w.cache.objects[k])]);
        ListHandlesGood(marked, handle, storage, r);
      }
    }
  }

  lemma ApplyGood(c: Cache, mtpSupported: bool, op: CacheOp)
    requires Good(c.objects)
    ensures Good(Apply(c, mtpSupported, op).objects)
  {
    match op
    case ListOp(storage, folder, r) => ListGood(c, mtpSupported, storage, folder, r);
    case WantOp(handle, asked, d) => WantGood(c, mtpSupported, handle, asked, d);
    case Remove(handle) =>
      if Found(c.objects, handle) {
        WithoutSorted(c.objects, Rank(c.objects, handle));
        WithoutKeepsInfo(c.objects, Rank(c.objects, handle));
      }
    case StoresChanged =>
  }

  /** Any sequence of listings (with every outcome), wants, removals and store events keeps the array strictly
      sorted. */
  lemma {:induction false} RunsKeepSorted(c: Cache, mtpSupported: bool, ops: seq<CacheOp>)
    requires Good(c.objects)
    ensures Good(After(c, mtpSupported, ops).objects)
    decreases ops
  {
    if ops != [] {
      ApplyGood(c, mtpSupported, ops[0]);
      RunsKeepSorted(Apply(c, mtpSupported, ops[0]), mtpSupported, ops[1..]);
    }
  }
}
