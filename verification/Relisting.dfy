/** A folder listed again from the cache, against its first listing. */
module Relisting {
  import opened Bytes
  import opened DeviceReply
  import opened UsbPort
  import opened ObjectCache
  import opened FolderListing
  import opened CacheRuns
  import opened Placement

  /** The handle is cached as a child of the folder, by the flag for good. */
  ghost predicate Child(obs: set<PTPObject>, handle: u32, folder: u32) {
    exists ob :: ob in obs && IsChild(ob, handle, folder)
  }

  predicate IsChild(ob: PTPObject, handle: u32, folder: u32) {
    ob.oid == handle && ob.oi.parentObject == folder && ParentObjectLoaded in ob.flags
  }

  /** The folder is cached with its info, and marked as listed. */
  ghost predicate Ready(obs: set<PTPObject>, folder: u32) {
    exists ob :: ob in obs && IsReady(ob, folder)
  }

  predicate IsReady(ob: PTPObject, folder: u32) {
    ob.oid == folder && INFO_FLAGS + {DirectoryLoaded} <= ob.flags && ob.oi.objectFormat == OFC_ASSOCIATION
  }

  ghost predicate Settled(obs: set<PTPObject>, folder: u32, handles: seq<u32>) {
    Ready(obs, folder) && forall h | h in handles :: Child(obs, h, folder)
  }

  // ---- The first listing settles the folder ----

  lemma KeptByUpdate(objs: seq<PTPObject>, k: nat, ob: PTPObject, folder: u32, handle: u32)
    requires k < |objs|
    requires IsChild(objs[k], handle, folder) ==> IsChild(ob, handle, folder)
    ensures Child(Elements(objs), handle, folder) ==> Child(Elements(objs[k := ob]), handle, folder)
  {
    UpdatedElements(objs, k, ob);
    if Child(Elements(objs), handle, folder) {
      var x :| x in Elements(objs) && IsChild(x, handle, folder);
      assert (if x == objs[k] then ob else x) in Elements(objs[k := ob]);
    }
  }

  lemma ReadyKeptByUpdate(objs: seq<PTPObject>, k: nat, ob: PTPObject, folder: u32)
    requires k < |objs|
    requires IsReady(objs[k], folder) ==> IsReady(ob, folder)
    ensures Ready(Elements(objs), folder) ==> Ready(Elements(objs[k := ob]), folder)
  {
    UpdatedElements(objs, k, ob);
    if Ready(Elements(objs), folder) {
      var x :| x in Elements(objs) && IsReady(x, folder);
      assert (if x == objs[k] then ob else x) in Elements(objs[k := ob]);
    }
  }

  lemma AddHandleKeeps(objs: seq<PTPObject>, h: u32, folder: u32, storage: u32, handle: u32)
    requires folder != 0 && folder != SPECIAL && Ready(Elements(objs), folder)
    ensures var r := AddHandle(objs, h, folder, storage);
      && Ready(Elements(r), folder) && Child(Elements(r), h, folder)
      && (Child(Elements(objs), handle, folder) ==> Child(Elements(r), handle, folder))
  {
    match IndexOf(objs, h)
    case Some(i) =>
      var ob := Relisted(objs[i], folder, storage);
      KeptByUpdate(objs, i, ob, folder, handle);
      ReadyKeptByUpdate(objs, i, ob, folder);
      UpdatedElements(objs, i, ob);
      assert IsChild(ob, h, folder);
    case None =>
      var ob := Listed(h, folder, storage);
      AppendElements(objs, ob);
      var f :| f in Elements(objs) && IsReady(f, folder);
      assert h != folder;
      assert IsChild(ob, h, folder);
  }

  lemma {:induction false} AddHandlesSettle(objs: seq<PTPObject>, handles: seq<u32>, folder: u32, storage: u32)
    requires folder != 0 && folder != SPECIAL && Ready(Elements(objs), folder)
    ensures Settled(Elements(AddHandles(objs, handles, folder, storage)), folder, handles)
  {
    if handles != [] {
      var before, h := handles[..|handles| - 1], handles[|handles| - 1];
      var mid := AddHandles(objs, before, folder, storage);
      AddHandlesSettle(objs, before, folder, storage);
      forall x | x in handles ensures Child(Elements(AddHandle(mid, h, folder, storage)), x, folder) {
        AddHandleKeeps(mid, h, folder, storage, x);
        assert x == h || x in before;
      }
      AddHandleKeeps(mid, h, folder, storage, h);
    }
  }

  /** The listing asked the device about this folder and got an answer about it, in some storage. */
  ghost predicate ListedByDevice(c: Cache, mtpSupported: bool, storage: u32, folder: u32, r: ListReplies) {
    && folder != 0 && folder != SPECIAL
    && ListFolder(c, mtpSupported, storage, folder, r).ret == RC_OK
    && !(DirectoryLoaded in FolderObject(c, mtpSupported, folder, r.folder).flags)
    && AskHandles(folder, storage, r).folder == folder
  }

  /** The folder's object after its info was asked for. */
  ghost function FolderObject(c: Cache, mtpSupported: bool, folder: u32, d: Replies): PTPObject {
    var w := Want(c, mtpSupported, folder, {ObjectInfoLoaded}, d);
    if w.index.Some? && w.index.value < |w.cache.objects| then w.cache.objects[w.index.value] else NewObject(folder)
  }

  lemma MarkedIsReady(c: Cache, mtpSupported: bool, folder: u32, d: Replies)
    requires Good(c.objects) && Want(c, mtpSupported, folder, {ObjectInfoLoaded}, d).ret == RC_OK
    requires FolderObject(c, mtpSupported, folder, d).oi.objectFormat == OFC_ASSOCIATION
    ensures var w := Want(c, mtpSupported, folder, {ObjectInfoLoaded}, d);
      && w.index.Some? && w.index.value < |w.cache.objects|
      && Ready(Elements(w.cache.objects[w.index.value := MarkDirectory(w.cache.objects[w.index.value])]), folder)
  {
    WantContract(c, mtpSupported, folder, {ObjectInfoLoaded}, d);
    WantKeepsInfo(c, mtpSupported, folder, {ObjectInfoLoaded}, d);
    var w := Want(c, mtpSupported, folder, {ObjectInfoLoaded}, d);
    var k := w.index.value;
    ElementInfo(w.cache.objects, k);
    UpdatedElements(w.cache.objects, k, MarkDirectory(w.cache.objects[k]));
    assert IsReady(MarkDirectory(w.cache.objects[k]), folder);
  }

  lemma SortedListingSettles(objs: seq<PTPObject>, handles: seq<u32>, folder: u32, storage: u32)
    requires Good(objs) && folder != 0 && folder != SPECIAL && Ready(Elements(objs), folder)
    ensures Settled(Elements(SortByOid(AddHandles(objs, handles, folder, storage))), folder, handles)
  {
    AddHandlesSettle(objs, handles, folder, storage);
    AddHandlesDistinct(objs, handles, folder, storage);
    SortSorts(AddHandles(objs, handles, folder, storage));
  }

  /** The array with the folder's object marked as listed. */
  ghost function Marked(c: Cache, mtpSupported: bool, folder: u32, d: Replies): seq<PTPObject> {
    var w := Want(c, mtpSupported, folder, {ObjectInfoLoaded}, d);
    if w.index.Some? && w.index.value < |w.cache.objects|
    then w.cache.objects[w.index.value := MarkDirectory(w.cache.objects[w.index.value])] else w.cache.objects
  }

  lemma MarkedGood(c: Cache, mtpSupported: bool, folder: u32, d: Replies)
    requires Good(c.objects) && Want(c, mtpSupported, folder, {ObjectInfoLoaded}, d).ret == RC_OK
    requires FolderObject(c, mtpSupported, folder, d).oi.objectFormat == OFC_ASSOCIATION
    ensures Good(Marked(c, mtpSupported, folder, d)) && Ready(Elements(Marked(c, mtpSupported, folder, d)), folder)
  {
    var w := Want(c, mtpSupported, folder, {ObjectInfoLoaded}, d);
    MarkedIsReady(c, mtpSupported, folder, d);
    WantGood(c, mtpSupported, folder, {ObjectInfoLoaded}, d);
    MarkGood(w.cache.objects, w.index.value);
  }

  /** Whether a listing gets as far as asking the device for handles. */
  ghost predicate Asks(c: Cache, mtpSupported: bool, listed: u32, d: Replies) {
    || listed == 0 || listed == SPECIAL
    || (&& Want(c, mtpSupported, listed, {ObjectInfoLoaded}, d).ret == RC_OK
        && FolderObject(c, mtpSupported, listed, d).oi.objectFormat == OFC_ASSOCIATION
        && DirectoryLoaded !in FolderObject(c, mtpSupported, listed, d).flags)
  }

  /** A listing is a want of the folder, and then either asks for handles or leaves the cache alone. */
  lemma ListUnfolds(c: Cache, mtpSupported: bool, storage: u32, listed: u32, r: ListReplies)
    ensures var out, w := ListFolder(c, mtpSupported, storage, listed, r),
                          Want(c, mtpSupported, listed, {ObjectInfoLoaded}, r.folder);
      if listed == 0 || listed == SPECIAL then out == ListHandles(c, 0, storage, r)
      else if Asks(c, mtpSupported, listed, r.folder)
      then out == ListHandles(w.cache.(objects := Marked(c, mtpSupported, listed, r.folder)), listed, storage, r)
      else && out.cache == w.cache
           && out.ret == (if w.ret != RC_OK then w.ret
                          else if FolderObject(c, mtpSupported, listed, r.folder).oi.objectFormat != OFC_ASSOCIATION
                          then RC_GENERAL_ERROR else RC_OK)
           && out.children == if out.ret == RC_OK then ChildrenOf(w.cache.objects, listed) else []
  {
    if listed != 0 && listed != SPECIAL && Want(c, mtpSupported, listed, {ObjectInfoLoaded}, r.folder).ret == RC_OK {
      WantGrows(c, mtpSupported, listed, {ObjectInfoLoaded}, r.folder);
    }
  }

  lemma ListedIsFolder(c: Cache, mtpSupported: bool, storage: u32, folder: u32, r: ListReplies)
    requires ListedByDevice(c, mtpSupported, storage, folder, r)
    ensures Want(c, mtpSupported, folder, {ObjectInfoLoaded}, r.folder).ret == RC_OK
    ensures FolderObject(c, mtpSupported, folder, r.folder).oi.objectFormat == OFC_ASSOCIATION
  {
    ListUnfolds(c, mtpSupported, storage, folder, r);
  }

  /** What a listing by the device leaves and returns. */
  lemma DeviceListing(c: Cache, mtpSupported: bool, storage: u32, folder: u32, r: ListReplies)
    requires ListedByDevice(c, mtpSupported, storage, folder, r)
    ensures var out, asked := ListFolder(c, mtpSupported, storage, folder, r), AskHandles(folder, storage, r);
      && asked.handles.Ok? && out.children == asked.handles.value
      && out.cache.objects
         == SortByOid(AddHandles(Marked(c, mtpSupported, folder, r.folder), asked.handles.value, folder, asked.storage))
  {
    ListedIsFolder(c, mtpSupported, storage, folder, r);
    ListUnfolds(c, mtpSupported, storage, folder, r);
  }

  lemma FirstListingSettles(c: Cache, mtpSupported: bool, storage: u32, folder: u32, r: ListReplies)
    requires Good(c.objects) && ListedByDevice(c, mtpSupported, storage, folder, r)
    ensures var out := ListFolder(c, mtpSupported, storage, folder, r);
      Settled(Elements(out.cache.objects), folder, out.children)
  {
    var marked := Marked(c, mtpSupported, folder, r.folder);
    ListedIsFolder(c, mtpSupported, storage, folder, r);
    MarkedGood(c, mtpSupported, folder, r.folder);
    DeviceListing(c, mtpSupported, storage, folder, r);
    var asked := AskHandles(folder, storage, r);
    SortedListingSettles(marked, asked.handles.value, folder, asked.storage);
  }

  // ---- A folder that names itself ----

  /** The correction for a handle that is its own parent guards new objects only, and a listed folder is never
      new: after a listing by the device the folder is its own parent if and only if the device named it among
      its children or it was its own parent before. */
  lemma OwnParentExactly(c: Cache, mtpSupported: bool, storage: u32, folder: u32, r: ListReplies)
    requires Good(c.objects) && ListedByDevice(c, mtpSupported, storage, folder, r)
    ensures var objs := ListFolder(c, mtpSupported, storage, folder, r).cache.objects;
            var asked := AskHandles(folder, storage, r).handles;
      && asked.Ok? && Found(objs, folder)
      && (objs[Rank(objs, folder)].oi.parentObject == folder
          <==> folder in asked.value || FolderObject(c, mtpSupported, folder, r.folder).oi.parentObject == folder)
  {
    var w := Want(c, mtpSupported, folder, {ObjectInfoLoaded}, r.folder);
    var marked, asked := Marked(c, mtpSupported, folder, r.folder), AskHandles(folder, storage, r);
    ListedIsFolder(c, mtpSupported, storage, folder, r);
    MarkedGood(c, mtpSupported, folder, r.folder);
    DeviceListing(c, mtpSupported, storage, folder, r);
    WantContract(c, mtpSupported, folder, {ObjectInfoLoaded}, r.folder);
    var ob := marked[w.index.value];
    assert ob in Elements(marked) && ob.oid == folder;
    SortedListingHas(marked, asked.handles.value, folder, asked.storage, ob);
  }

  // ---- A child under a want ----

  /** What the device has no property lists for cannot override. */
  predicate Plain(c: Cache, mtpSupported: bool) {
    c.overridesOi ==> !mtpSupported
  }

  /** The property list that came with a want overrode the object's info: it was fetched, and not before. */
  ghost predicate Overridden(c: Cache, mtpSupported: bool, handle: u32, asked: set<Flag>, d: Replies) {
    && !Plain(Want(c, mtpSupported, handle, asked, d).cache, mtpSupported) && d.props.Ok?
    && MtpPropListLoaded !in Insert(c.objects, handle)[Rank(c.objects, handle)].flags
  }

  /** Exactly when a child stays in its folder: a want that keeps the object keeps its parent, unless a property
      list overrides it that names another one last. */
  lemma ChildStaysExactly(c: Cache, mtpSupported: bool, handle: u32, asked: set<Flag>, d: Replies, folder: u32)
    requires Good(c.objects) && Ready(Elements(c.objects), folder) && Found(c.objects, handle)
    requires IsChild(c.objects[Rank(c.objects, handle)], handle, folder)
    requires Want(c, mtpSupported, handle, asked, d).index.Some?
    ensures var w, k := Want(c, mtpSupported, handle, asked, d), Rank(c.objects, handle);
      && w.index == Some(k) && k < |w.cache.objects|
      && (IsChild(w.cache.objects[k], handle, folder)
          <==> (Overridden(c, mtpSupported, handle, asked, d) ==>
                 Or(LastParent(d.props.value, handle), folder) == folder))
  {
    WantGrows(c, mtpSupported, handle, asked, d);
    var want := if c.overridesOi then asked + {MtpPropListLoaded} else asked;
    var k := Rank(c.objects, handle);
    var ob := c.objects[k];
    if !(want <= ob.flags) {
      if NeedsInfo(want, ob.flags) {
        var info := d.info.value;
        MergeKeepsChild(c.objects, k, handle, folder, info, d);
        MergePropsPlace(MergeInfo(c.objects, ob, handle, info, d), true, d);
        MergePropsPlace(MergeInfo(c.objects, ob, handle, info, d), c.overridesOi, d);
      } else {
        MergePropsPlace(ob, c.overridesOi, d);
      }
    }
  }

  // ---- What keeps a folder settled ----

  lemma InsertElements(objs: seq<PTPObject>, handle: u32)
    ensures Elements(objs) <= Elements(Insert(objs, handle))
  {
    var r, k := Insert(objs, handle), Rank(objs, handle);
    forall x | x in Elements(objs) ensures x in Elements(r) {
      var i :| 0 <= i < |objs| && objs[i] == x;
      assert r[if Found(objs, handle) || i < k then i else i + 1] == x;
    }
  }

  lemma SettledGrows(a: set<PTPObject>, b: set<PTPObject>, folder: u32, handles: seq<u32>)
    requires a <= b && Settled(a, folder, handles)
    ensures Settled(b, folder, handles)
  {
    forall h | h in handles ensures Child(b, h, folder) {
      var x :| x in a && IsChild(x, h, folder);
      assert x in b;
    }
    var x :| x in a && IsReady(x, folder);
    assert x in b;
  }

  lemma SettledUpdate(objs: seq<PTPObject>, k: nat, ob: PTPObject, folder: u32, handles: seq<u32>)
    requires k < |objs| && Settled(Elements(objs), folder, handles)
    requires IsReady(objs[k], folder) ==> IsReady(ob, folder)
    requires ob.oid == objs[k].oid
    requires ob.oid in handles && IsChild(objs[k], ob.oid, folder) ==> IsChild(ob, ob.oid, folder)
    ensures Settled(Elements(objs[k := ob]), folder, handles)
  {
    ReadyKeptByUpdate(objs, k, ob, folder);
    forall h | h in handles ensures Child(Elements(objs[k := ob]), h, folder) {
      KeptByUpdate(objs, k, ob, folder, h);
    }
  }

  lemma SettledWithout(objs: seq<PTPObject>, k: nat, folder: u32, handles: seq<u32>)
    requires k < |objs| && Settled(Elements(objs), folder, handles)
    requires objs[k].oid != folder && objs[k].oid !in handles
    ensures Settled(Elements(Without(objs, k)), folder, handles)
  {
    var r := Without(objs, k);
    forall x | x in Elements(objs) && x != objs[k] ensures x in Elements(r) {
      var i :| 0 <= i < |objs| && objs[i] == x;
      assert r[if i < k then i else i - 1] == x;
    }
    forall h | h in handles ensures Child(Elements(r), h, folder) {
      var x :| x in Elements(objs) && IsChild(x, h, folder);
      assert x in Elements(r);
    }
    var x :| x in Elements(objs) && IsReady(x, folder);
    assert x in Elements(r);
  }

  /** Fetching the info of a child keeps its parent: the flag protects it, the folder itself is not fetched
      again, and as the folder is cached the root correction does not apply. */
  lemma MergeKeepsChild(objs: seq<PTPObject>, k: nat, handle: u32, folder: u32, info: ObjectInfo, d: Replies)
    requires Sorted(objs) && k < |objs| && objs[k].oid == handle
    requires Ready(Elements(objs), folder) && !(INFO_FLAGS <= objs[k].flags)
    ensures var ob := MergeInfo(objs, objs[k], handle, info, d);
      && (IsChild(objs[k], handle, folder) ==> IsChild(ob, handle, folder))
      && !IsReady(objs[k], folder) && ob.oid == handle
  {
    var f :| f in Elements(objs) && IsReady(f, folder);
    var i :| 0 <= i < |objs| && objs[i] == f;
    assert Has(objs, folder);
    assert handle != folder;
  }

  /** The property list for `handle`, if one comes, names no other parent for a child of the folder and no other
      format for the folder itself. */
  predicate Harmless(d: Replies, handle: u32, folder: u32, handles: seq<u32>) {
    d.props.Ok? ==>
      && (handle in handles ==> Or(LastParent(d.props.value, handle), folder) == folder)
      && (handle == folder ==> Or(LastFormat(d.props.value, handle), OFC_ASSOCIATION) == OFC_ASSOCIATION)
  }

  lemma WantPropsKeepsSettled(c: Cache, mtpSupported: bool, k: nat, want: set<Flag>, d: Replies,
                              folder: u32, handles: seq<u32>)
    requires k < |c.objects| && Settled(Elements(c.objects), folder, handles)
    requires Plain(c, mtpSupported) || Harmless(d, c.objects[k].oid, folder, handles)
    ensures Settled(Elements(WantProps(c, mtpSupported, k, want, d).cache.objects), folder, handles)
  {
    MergePropsPlace(c.objects[k], c.overridesOi, d);
    SettledUpdate(c.objects, k, WantProps(c, mtpSupported, k, want, d).cache.objects[k], folder, handles);
  }

  /** A want that neither removes the folder or one of its children nor overrides their place. */
  ghost predicate GentleWant(c: Cache, mtpSupported: bool, handle: u32, asked: set<Flag>, d: Replies,
                             folder: u32, handles: seq<u32>)
  {
    var w := Want(c, mtpSupported, handle, asked, d);
    && (w.index.Some? || (handle != folder && handle !in handles))
    && (Plain(w.cache, mtpSupported) || Harmless(d, handle, folder, handles))
  }

  lemma WantKeepsSettled(c: Cache, mtpSupported: bool, handle: u32, asked: set<Flag>, d: Replies,
                         folder: u32, handles: seq<u32>)
    requires Good(c.objects) && Settled(Elements(c.objects), folder, handles)
    requires GentleWant(c, mtpSupported, handle, asked, d, folder, handles)
    ensures Settled(Elements(Want(c, mtpSupported, handle, asked, d).cache.objects), folder, handles)
  {
    if Want(c, mtpSupported, handle, asked, d).index.Some? {
      KeptWantKeepsSettled(c, mtpSupported, handle, asked, d, folder, handles);
    } else {
      WantFails(c, mtpSupported, handle, asked, d);
      if handle != 0 && Found(c.objects, handle) {
        SettledWithout(c.objects, Rank(c.objects, handle), folder, handles);
      }
    }
  }

  lemma KeptWantKeepsSettled(c: Cache, mtpSupported: bool, handle: u32, asked: set<Flag>, d: Replies,
                             folder: u32, handles: seq<u32>)
    requires Good(c.objects) && Settled(Elements(c.objects), folder, handles)
    requires GentleWant(c, mtpSupported, handle, asked, d, folder, handles)
    requires Want(c, mtpSupported, handle, asked, d).index.Some?
    ensures Settled(Elements(Want(c, mtpSupported, handle, asked, d).cache.objects), folder, handles)
  {
    var want := if c.overridesOi then asked + {MtpPropListLoaded} else asked;
    var objs, k := Insert(c.objects, handle), Rank(c.objects, handle);
    InsertElements(c.objects, handle);
    SettledGrows(Elements(c.objects), Elements(objs), folder, handles);
    if want <= objs[k].flags {
    } else if !NeedsInfo(want, objs[k].flags) {
      WantPropsKeepsSettled(c.(objects := objs), mtpSupported, k, want, d, folder, handles);
    } else {
      InsertSorted(c.objects, handle);
      var info := d.info.value;
      var ob := MergeInfo(objs, objs[k], handle, info, d);
      MergeKeepsChild(objs, k, handle, folder, info, d);
      SettledUpdate(objs, k, ob, folder, handles);
      if info.objectSize == UNKNOWN_SIZE && d.nikonSize == None {
        WantPropsKeepsSettled(Cache(objs[k := ob], true), mtpSupported, k, want + {MtpPropListLoaded}, d,
                              folder, handles);
      } else {
        WantPropsKeepsSettled(c.(objects := objs[k := ob]), mtpSupported, k, want, d, folder, handles);
      }
    }
  }

  lemma AddHandleKeepsSettled(objs: seq<PTPObject>, h: u32, tag: u32, storage: u32, folder: u32, handles: seq<u32>)
    requires Settled(Elements(objs), folder, handles)
    requires tag == SPECIAL || tag == folder || h !in handles
    ensures Settled(Elements(AddHandle(objs, h, tag, storage)), folder, handles)
  {
    match IndexOf(objs, h)
    case Some(i) =>
      SettledUpdate(objs, i, Relisted(objs[i], tag, storage), folder, handles);
    case None =>
      var ob := Listed(h, tag, storage);
      AppendElements(objs, ob);
      SettledGrows(Elements(objs), Elements(objs + [ob]), folder, handles);
  }

  lemma {:induction false} AddHandlesKeepSettled(objs: seq<PTPObject>, named: seq<u32>, tag: u32, storage: u32,
                                                 folder: u32, handles: seq<u32>)
    requires Settled(Elements(objs), folder, handles)
    requires tag == SPECIAL || tag == folder || forall h | h in named :: h !in handles
    ensures Settled(Elements(AddHandles(objs, named, tag, storage)), folder, handles)
  {
    if named != [] {
      var before, h := named[..|named| - 1], named[|named| - 1];
      AddHandlesKeepSettled(objs, before, tag, storage, folder, handles);
      AddHandleKeepsSettled(AddHandles(objs, before, tag, storage), h, tag, storage, folder, handles);
    }
  }

  /** A listing of another folder that tags no child of this one: it names none, or fell back to the listing of
      everything, which tags nothing. */
  predicate GentleNames(listed: u32, storage: u32, r: ListReplies, folder: u32, handles: seq<u32>) {
    var asked := AskHandles(listed, storage, r);
    asked.handles.Ok? ==>
      asked.folder == SPECIAL || asked.folder == folder || forall h | h in asked.handles.value :: h !in handles
  }

  lemma ListHandlesKeepsSettled(c: Cache, listed: u32, storage: u32, r: ListReplies, folder: u32, handles: seq<u32>)
    requires Good(c.objects) && Settled(Elements(c.objects), folder, handles)
    requires GentleNames(listed, storage, r, folder, handles)
    ensures Settled(Elements(ListHandles(c, listed, storage, r).cache.objects), folder, handles)
  {
    var asked := AskHandles(listed, storage, r);
    if asked.handles.Ok? {
      var named := asked.handles.value;
      AddHandlesKeepSettled(c.objects, named, asked.folder, asked.storage, folder, handles);
      AddHandlesDistinct(c.objects, named, asked.folder, asked.storage);
      SortSorts(AddHandles(c.objects, named, asked.folder, asked.storage));
    }
  }

  ghost predicate GentleList(c: Cache, mtpSupported: bool, storage: u32, listed: u32, r: ListReplies,
                             folder: u32, handles: seq<u32>)
  {
    && (listed != 0 && listed != SPECIAL ==>
         GentleWant(c, mtpSupported, listed, {ObjectInfoLoaded}, r.folder, folder, handles))
    && (Asks(c, mtpSupported, listed, r.folder) ==>
         GentleNames(if listed == SPECIAL then 0 else listed, storage, r, folder, handles))
  }

  lemma ListKeepsSettled(c: Cache, mtpSupported: bool, storage: u32, listed: u32, r: ListReplies,
                         folder: u32, handles: seq<u32>)
    requires Good(c.objects) && Settled(Elements(c.objects), folder, handles)
    requires GentleList(c, mtpSupported, storage, listed, r, folder, handles)
    ensures Settled(Elements(ListFolder(c, mtpSupported, storage, listed, r).cache.objects), folder, handles)
  {
    ListUnfolds(c, mtpSupported, storage, listed, r);
    if listed == 0 || listed == SPECIAL {
      ListHandlesKeepsSettled(c, 0, storage, r, folder, handles);
    } else {
      WantKeepsSettled(c, mtpSupported, listed, {ObjectInfoLoaded}, r.folder, folder, handles);
      if Asks(c, mtpSupported, listed, r.folder) {
        MarkKeepsSettled(c, mtpSupported, listed, r.folder, folder, handles);
        ListHandlesKeepsSettled(
          Want(c, mtpSupported, listed, {ObjectInfoLoaded}, r.folder).cache.(
            objects := Marked(c, mtpSupported, listed, r.folder)), listed, storage, r, folder, handles);
      }
    }
  }

  lemma MarkKeepsSettled(c: Cache, mtpSupported: bool, listed: u32, d: Replies, folder: u32, handles: seq<u32>)
    requires Good(c.objects) && Want(c, mtpSupported, listed, {ObjectInfoLoaded}, d).ret == RC_OK
    requires Settled(Elements(Want(c, mtpSupported, listed, {ObjectInfoLoaded}, d).cache.objects), folder, handles)
    ensures Good(Marked(c, mtpSupported, listed, d))
    ensures Settled(Elements(Marked(c, mtpSupported, listed, d)), folder, handles)
  {
    var w := Want(c, mtpSupported, listed, {ObjectInfoLoaded}, d);
    WantGood(c, mtpSupported, listed, {ObjectInfoLoaded}, d);
    WantContract(c, mtpSupported, listed, {ObjectInfoLoaded}, d);
    MarkGood(w.cache.objects, w.index.value);
    SettledUpdate(w.cache.objects, w.index.value, MarkDirectory(w.cache.objects[w.index.value]), folder, handles);
  }

  /** An operation that leaves the folder and its children in place. */
  ghost predicate Gentle(c: Cache, mtpSupported: bool, op: CacheOp, folder: u32, handles: seq<u32>) {
    match op
    case ListOp(storage, listed, r) => GentleList(c, mtpSupported, storage, listed, r, folder, handles)
    case WantOp(handle, asked, d) => GentleWant(c, mtpSupported, handle, asked, d, folder, handles)
    case Remove(handle) => handle != folder && handle !in handles
    case StoresChanged => false
  }

  ghost predicate GentleRun(c: Cache, mtpSupported: bool, ops: seq<CacheOp>, folder: u32, handles: seq<u32>)
    decreases ops
  {
    ops != [] ==>
      && Gentle(c, mtpSupported, ops[0], folder, handles)
      && GentleRun(CacheRuns.Apply(c, mtpSupported, ops[0]), mtpSupported, ops[1..], folder, handles)
  }

  lemma GentleKeepsSettled(c: Cache, mtpSupported: bool, op: CacheOp, folder: u32, handles: seq<u32>)
    requires Good(c.objects) && Settled(Elements(c.objects), folder, handles)
    requires Gentle(c, mtpSupported, op, folder, handles)
    ensures Settled(Elements(CacheRuns.Apply(c, mtpSupported, op).objects), folder, handles)
  {
    match op
    case ListOp(storage, listed, r) => ListKeepsSettled(c, mtpSupported, storage, listed, r, folder, handles);
    case WantOp(handle, asked, d) => WantKeepsSettled(c, mtpSupported, handle, asked, d, folder, handles);
    case Remove(handle) =>
      if Found(c.objects, handle) {
        SettledWithout(c.objects, Rank(c.objects, handle), folder, handles);
      }
  }

  lemma {:induction false} GentleRunsKeepSettled(c: Cache, mtpSupported: bool, ops: seq<CacheOp>,
                                                 folder: u32, handles: seq<u32>)
    requires Good(c.objects) && Settled(Elements(c.objects), folder, handles)
    requires GentleRun(c, mtpSupported, ops, folder, handles)
    ensures Settled(Elements(After(c, mtpSupported, ops).objects), folder, handles)
    decreases ops
  {
    if ops != [] {
      var next := CacheRuns.Apply(c, mtpSupported, ops[0]);
      ApplyGood(c, mtpSupported, ops[0]);
      GentleKeepsSettled(c, mtpSupported, ops[0], folder, handles);
      GentleRunsKeepSettled(next, mtpSupported, ops[1..], folder, handles);
    }
  }

  // ---- The second listing ----

  /** A ready folder is listed from the cache; nothing is asked and nothing changes. */
  lemma ReadyListsFromCache(c: Cache, mtpSupported: bool, storage: u32, folder: u32, r: ListReplies)
    requires Good(c.objects) && Ready(Elements(c.objects), folder) && Plain(c, mtpSupported)
    requires folder != 0 && folder != SPECIAL
    ensures ListFolder(c, mtpSupported, storage, folder, r) == ListOut(RC_OK, c, ChildrenOf(c.objects, folder))
  {
    var f :| f in Elements(c.objects) && IsReady(f, folder);
    var i :| 0 <= i < |c.objects| && c.objects[i] == f;
    RankIs(c.objects, folder, i);
    var d := r.folder;
    var want := if c.overridesOi then {ObjectInfoLoaded, MtpPropListLoaded} else {ObjectInfoLoaded};
    assert {ObjectInfoLoaded} + {MtpPropListLoaded} == {ObjectInfoLoaded, MtpPropListLoaded};
    assert !NeedsInfo(want, f.flags);
    assert c.objects[i := f] == c.objects;
    assert Want(c, mtpSupported, folder, {ObjectInfoLoaded}, d) == WantOut(RC_OK, c, Some(i));
  }

  lemma ReadyStands(objs: seq<PTPObject>, folder: u32)
    requires Sorted(objs) && Ready(Elements(objs), folder)
    ensures Found(objs, folder) && IsReady(objs[Rank(objs, folder)], folder)
  {
    var f :| f in Elements(objs) && IsReady(f, folder);
    StandsAtRank(objs, f);
  }

  /** Wanting a ready folder again asks for its property list at most; the folder stays, and it fails exactly
      when an overriding property list is missing and cannot be had. */
  lemma ReadyWant(c: Cache, mtpSupported: bool, folder: u32, d: Replies)
    requires Good(c.objects) && Ready(Elements(c.objects), folder) && folder != 0
    ensures var w, k := Want(c, mtpSupported, folder, {ObjectInfoLoaded}, d), Rank(c.objects, folder);
      && k < |c.objects| && w.index == Some(k) && w.cache.overridesOi == c.overridesOi
      && (w.ret == RC_OK
          <==> Plain(c, mtpSupported) || MtpPropListLoaded in c.objects[k].flags || d.props.Ok?)
      && (Plain(c, mtpSupported) || MtpPropListLoaded in c.objects[k].flags || d.props.Err? ==> w.cache == c)
  {
    ReadyStands(c.objects, folder);
    var k := Rank(c.objects, folder);
    var want := if c.overridesOi then {ObjectInfoLoaded} + {MtpPropListLoaded} else {ObjectInfoLoaded};
    assert !NeedsInfo(want, c.objects[k].flags);
    assert c.objects[k := c.objects[k]] == c.objects;
  }

  /** A settled folder is never asked for again: it is listed from the cache, as its want left it. */
  lemma SettledListsFromCache(c: Cache, mtpSupported: bool, storage: u32, folder: u32, handles: seq<u32>,
                              r: ListReplies)
    requires Good(c.objects) && Settled(Elements(c.objects), folder, handles) && folder != 0 && folder != SPECIAL
    requires Plain(c, mtpSupported) || Harmless(r.folder, folder, folder, handles)
    ensures var w := Want(c, mtpSupported, folder, {ObjectInfoLoaded}, r.folder);
      && ListFolder(c, mtpSupported, storage, folder, r)
         == ListOut(w.ret, w.cache, if w.ret == RC_OK then ChildrenOf(w.cache.objects, folder) else [])
      && Good(w.cache.objects) && Settled(Elements(w.cache.objects), folder, handles)
  {
    var w := Want(c, mtpSupported, folder, {ObjectInfoLoaded}, r.folder);
    ReadyWant(c, mtpSupported, folder, r.folder);
    WantKeepsSettled(c, mtpSupported, folder, {ObjectInfoLoaded}, r.folder, folder, handles);
    WantGood(c, mtpSupported, folder, {ObjectInfoLoaded}, r.folder);
    WantGrows(c, mtpSupported, folder, {ObjectInfoLoaded}, r.folder);
    ReadyStands(w.cache.objects, folder);
    assert w.cache.objects[w.index.value].oid == folder;
    StandsAtRank(w.cache.objects, w.cache.objects[w.index.value]);
    ListUnfolds(c, mtpSupported, storage, folder, r);
  }

  lemma SettledChildren(objs: seq<PTPObject>, folder: u32, handles: seq<u32>)
    requires Settled(Elements(objs), folder, handles)
    ensures forall h | h in handles :: h in ChildrenOf(objs, folder)
    ensures forall h :: h in ChildrenOf(objs, folder) <==>
                          exists ob :: ob in Elements(objs) && ob.oid == h && ob.oi.parentObject == folder
  {
    forall h
      ensures h in ChildrenOf(objs, folder) <==>
              exists ob :: ob in Elements(objs) && ob.oid == h && ob.oi.parentObject == folder
    {
      ChildrenAre(objs, folder, h);
    }
    forall h | h in handles ensures h in ChildrenOf(objs, folder) {
      var ob :| ob in Elements(objs) && IsChild(ob, h, folder);
    }
  }

  predicate HasProps(objs: seq<PTPObject>, handle: u32) {
    Found(objs, handle) && MtpPropListLoaded in objs[Rank(objs, handle)].flags
  }

  /** What a listing of a settled folder returns. It fails only if an overriding property list is wanted for the
      folder and cannot be had. */
  ghost predicate ListsSettled(c: Cache, mtpSupported: bool, folder: u32, handles: seq<u32>, r: ListReplies,
                               out: ListOut)
  {
    && (out.ret == RC_OK <==> Plain(c, mtpSupported) || r.folder.props.Ok? || HasProps(c.objects, folder))
    && (Plain(c, mtpSupported) || HasProps(c.objects, folder) ==> out.cache == c)
    && (out.ret == RC_OK ==>
         && (forall h | h in handles :: h in out.children) && Increasing(out.children)
         && (forall h :: h in out.children <==>
               exists ob :: ob in Elements(out.cache.objects) && ob.oid == h && ob.oi.parentObject == folder))
  }

  lemma SettledRelists(c: Cache, mtpSupported: bool, storage: u32, folder: u32, handles: seq<u32>, r: ListReplies)
    requires Good(c.objects) && Settled(Elements(c.objects), folder, handles) && folder != 0 && folder != SPECIAL
    requires Plain(c, mtpSupported) || Harmless(r.folder, folder, folder, handles)
    ensures ListsSettled(c, mtpSupported, folder, handles, r, ListFolder(c, mtpSupported, storage, folder, r))
  {
    var w := Want(c, mtpSupported, folder, {ObjectInfoLoaded}, r.folder);
    ReadyStands(c.objects, folder);
    ReadyWant(c, mtpSupported, folder, r.folder);
    SettledListsFromCache(c, mtpSupported, storage, folder, handles, r);
    SettledChildren(w.cache.objects, folder, handles);
    ChildrenIncrease(w.cache.objects, folder);
  }

  /** Cached relisting agrees with the first listing: after a listing by the device and then any wants, removals
      and listings of other folders that leave the folder and the handles listed in place, the folder listed
      again returns every handle of the first listing, and exactly the cached objects whose parent is the
      folder. */
  lemma RelistingAgrees(c: Cache, mtpSupported: bool, storage: u32, folder: u32, r: ListReplies,
                        ops: seq<CacheOp>, storage': u32, r': ListReplies)
    requires Good(c.objects) && ListedByDevice(c, mtpSupported, storage, folder, r)
    requires var first := ListFolder(c, mtpSupported, storage, folder, r);
      && GentleRun(first.cache, mtpSupported, ops, folder, first.children)
      && (|| Plain(After(first.cache, mtpSupported, ops), mtpSupported)
          || Harmless(r'.folder, folder, folder, first.children))
    ensures var first := ListFolder(c, mtpSupported, storage, folder, r);
            var later := After(first.cache, mtpSupported, ops);
            var second := ListFolder(later, mtpSupported, storage', folder, r');
      ListsSettled(later, mtpSupported, folder, first.children, r', second)
  {
    var first := ListFolder(c, mtpSupported, storage, folder, r);
    FirstListingSettles(c, mtpSupported, storage, folder, r);
    ListGood(c, mtpSupported, storage, folder, r);
    GentleRunsKeepSettled(first.cache, mtpSupported, ops, folder, first.children);
    RunsKeepSorted(first.cache, mtpSupported, ops);
    SettledRelists(After(first.cache, mtpSupported, ops), mtpSupported, storage', folder, first.children, r');
  }

  // ---- Listings that fail ----

  /** Wanting never marks an object as listed. */
  lemma WantMarksNothing(c: Cache, mtpSupported: bool, handle: u32, asked: set<Flag>, d: Replies)
    requires Want(c, mtpSupported, handle, asked, d).index.Some?
    ensures var w, k := Want(c, mtpSupported, handle, asked, d), Rank(c.objects, handle);
      && w.index == Some(k) && k < |w.cache.objects|
      && (DirectoryLoaded in w.cache.objects[k].flags <==> DirectoryLoaded in Insert(c.objects, handle)[k].flags)
  {
    WantGrows(c, mtpSupported, handle, asked, d);
  }

  lemma UnmarkedNotReady(c: Cache, mtpSupported: bool, folder: u32, d: Replies)
    requires Good(c.objects) && folder != 0
    requires Found(c.objects, folder) ==> DirectoryLoaded !in c.objects[Rank(c.objects, folder)].flags
    ensures !Ready(Elements(Want(c, mtpSupported, folder, {ObjectInfoLoaded}, d).cache.objects), folder)
  {
    var w, k := Want(c, mtpSupported, folder, {ObjectInfoLoaded}, d), Rank(c.objects, folder);
    WantContract(c, mtpSupported, folder, {ObjectInfoLoaded}, d);
    forall x | x in Elements(w.cache.objects) ensures !IsReady(x, folder) {
      if x.oid == folder {
        StandsAtRank(w.cache.objects, x);
        GoneOrUnmarked(c, mtpSupported, folder, d);
      }
    }
  }

  lemma GoneOrUnmarked(c: Cache, mtpSupported: bool, folder: u32, d: Replies)
    requires Good(c.objects) && folder != 0
    requires Found(c.objects, folder) ==> DirectoryLoaded !in c.objects[Rank(c.objects, folder)].flags
    ensures var objs := Want(c, mtpSupported, folder, {ObjectInfoLoaded}, d).cache.objects;
      Found(objs, folder) ==> DirectoryLoaded !in objs[Rank(objs, folder)].flags
  {
    var w, k := Want(c, mtpSupported, folder, {ObjectInfoLoaded}, d), Rank(c.objects, folder);
    WantContract(c, mtpSupported, folder, {ObjectInfoLoaded}, d);
    if w.index.Some? {
      WantMarksNothing(c, mtpSupported, folder, {ObjectInfoLoaded}, d);
      assert w.cache.objects[k] in Elements(w.cache.objects);
      StandsAtRank(w.cache.objects, w.cache.objects[k]);
    } else {
      WantFails(c, mtpSupported, folder, {ObjectInfoLoaded}, d);
      if Found(c.objects, folder) {
        WithoutSorted(c.objects, k);
      }
      FoundIsHas(w.cache.objects, folder);
      FoundIsHas(c.objects, folder);
      assert Has(w.cache.objects, folder) <==> folder in Oids(w.cache.objects);
    }
  }

  /** Exactly which failures stick: the folder is marked as listed before the device is asked for handles, so a
      failed listing of a folder not marked before leaves it marked if and only if its info could be had and
      says that it is a folder. */
  lemma FailureSticksExactly(c: Cache, mtpSupported: bool, storage: u32, folder: u32, r: ListReplies)
    requires Good(c.objects) && folder != 0 && folder != SPECIAL
    requires Found(c.objects, folder) ==> DirectoryLoaded !in c.objects[Rank(c.objects, folder)].flags
    requires ListFolder(c, mtpSupported, storage, folder, r).ret != RC_OK
    ensures Ready(Elements(ListFolder(c, mtpSupported, storage, folder, r).cache.objects), folder)
       <==> && Want(c, mtpSupported, folder, {ObjectInfoLoaded}, r.folder).ret == RC_OK
            && FolderObject(c, mtpSupported, folder, r.folder).oi.objectFormat == 0x3001
  {
    ListUnfolds(c, mtpSupported, storage, folder, r);
    if Asks(c, mtpSupported, folder, r.folder) {
      MarkedGood(c, mtpSupported, folder, r.folder);
    } else {
      UnmarkedNotReady(c, mtpSupported, folder, r.folder);
      if Want(c, mtpSupported, folder, {ObjectInfoLoaded}, r.folder).ret == RC_OK {
        WantMarksNothing(c, mtpSupported, folder, {ObjectInfoLoaded}, r.folder);
      }
    }
  }

  /** A failure that sticks: the next listing returns OK from the cache without asking again. */
  lemma FailedListingSticks(c: Cache, mtpSupported: bool, storage: u32, folder: u32, r: ListReplies,
                            storage': u32, r': ListReplies)
    requires Good(c.objects) && folder != 0 && folder != SPECIAL
    requires Found(c.objects, folder) ==> DirectoryLoaded !in c.objects[Rank(c.objects, folder)].flags
    requires Want(c, mtpSupported, folder, {ObjectInfoLoaded}, r.folder).ret == RC_OK
    requires FolderObject(c, mtpSupported, folder, r.folder).oi.objectFormat == OFC_ASSOCIATION
    requires ListFolder(c, mtpSupported, storage, folder, r).ret != RC_OK
    requires Plain(ListFolder(c, mtpSupported, storage, folder, r).cache, mtpSupported)
    ensures var failed := ListFolder(c, mtpSupported, storage, folder, r);
      ListFolder(failed.cache, mtpSupported, storage', folder, r')
      == ListOut(RC_OK, failed.cache, ChildrenOf(failed.cache.objects, folder))
  {
    FailureSticksExactly(c, mtpSupported, storage, folder, r);
    ListGood(c, mtpSupported, storage, folder, r);
    ReadyListsFromCache(ListFolder(c, mtpSupported, storage, folder, r).cache, mtpSupported, storage', folder, r');
  }
}
