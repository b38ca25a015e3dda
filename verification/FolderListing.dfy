/** Listing a folder (ptp.c, the generic path): handles are appended behind the sorted array, which is then
    sorted again. */
module FolderListing {
  import opened Bytes
  import opened DeviceReply
  import opened UsbPort
  import opened ObjectCache

  // ---- qsort by handle ----

  function InsertByOid(objs: seq<PTPObject>, ob: PTPObject): seq<PTPObject> {
    if objs == [] || ob.oid <= objs[0].oid then [ob] + objs else [objs[0]] + InsertByOid(objs[1..], ob)
  }

  function SortByOid(objs: seq<PTPObject>): seq<PTPObject> {
    if objs == [] then [] else InsertByOid(SortByOid(objs[1..]), objs[0])
  }

  ghost predicate Distinct(objs: seq<PTPObject>) {
    forall i, j | 0 <= i < j < |objs| :: objs[i].oid != objs[j].oid
  }

  ghost function Elements(objs: seq<PTPObject>): set<PTPObject> {
    set i | 0 <= i < |objs| :: objs[i]
  }

  lemma ElementsCons(ob: PTPObject, rest: seq<PTPObject>)
    ensures Elements([ob] + rest) == {ob} + Elements(rest)
  {
    var all := [ob] + rest;
    assert all[0] == ob;
    assert forall i | 0 <= i < |rest| :: all[i + 1] == rest[i];
    assert forall x | x in Elements(rest) :: x in Elements(all);
  }

  lemma SortedCons(head: PTPObject, rest: seq<PTPObject>)
    requires Sorted(rest) && forall x | x in Elements(rest) :: head.oid < x.oid
    ensures Sorted([head] + rest)
  {
    assert forall i | 0 <= i < |rest| :: rest[i] in Elements(rest);
  }

  lemma SortedHead(objs: seq<PTPObject>)
    requires Sorted(objs) && objs != []
    ensures Sorted(objs[1..]) && forall x | x in Elements(objs[1..]) :: objs[0].oid < x.oid
    ensures Elements(objs) == {objs[0]} + Elements(objs[1..])
  {
    assert forall i | 0 <= i < |objs| - 1 :: objs[1..][i] == objs[i + 1];
    assert objs == [objs[0]] + objs[1..];
    ElementsCons(objs[0], objs[1..]);
  }

  lemma {:induction false} InsertByOidSorts(objs: seq<PTPObject>, ob: PTPObject)
    requires Sorted(objs) && forall x | x in Elements(objs) :: x.oid != ob.oid
    ensures Sorted(InsertByOid(objs, ob))
    ensures Elements(InsertByOid(objs, ob)) == Elements(objs) + {ob}
    ensures |InsertByOid(objs, ob)| == |objs| + 1
  {
    if objs != [] {
      SortedHead(objs);
    }
    if objs == [] || ob.oid <= objs[0].oid {
      ElementsCons(ob, objs);
      SortedCons(ob, objs);
    } else {
      InsertByOidSorts(objs[1..], ob);
      ElementsCons(objs[0], InsertByOid(objs[1..], ob));
      SortedCons(objs[0], InsertByOid(objs[1..], ob));
    }
  }

  /** On distinct handles sorting yields the strictly sorted array of the same objects. */
  lemma {:induction false} SortSorts(objs: seq<PTPObject>)
    requires Distinct(objs)
    ensures Sorted(SortByOid(objs)) && Elements(SortByOid(objs)) == Elements(objs)
    ensures |SortByOid(objs)| == |objs|
  {
    if objs != [] {
      var head, rest := objs[0], objs[1..];
      assert objs == [head] + rest;
      assert forall i | 0 <= i < |rest| :: rest[i] == objs[i + 1];
      SortSorts(rest);
      ElementsCons(head, rest);
      InsertByOidSorts(SortByOid(rest), head);
    }
  }

  lemma HeadIsLeast(a: seq<PTPObject>, x: PTPObject)
    requires Sorted(a) && x in Elements(a)
    ensures a != [] && (x == a[0] || a[0].oid < x.oid)
  {
  }

  /** There is only one strictly sorted array of given objects: any sorting gives the same. */
  lemma {:induction false} SortedIsUnique(a: seq<PTPObject>, b: seq<PTPObject>)
    requires Sorted(a) && Sorted(b) && Elements(a) == Elements(b)
    ensures a == b
  {
    if a != [] {
      assert a[0] in Elements(b);
      HeadIsLeast(b, a[0]);
      assert b[0] in Elements(a);
      HeadIsLeast(a, b[0]);
      SortedHead(a);
      SortedHead(b);
      assert Elements(a[1..]) == Elements(a) - {a[0]};
      SortedIsUnique(a[1..], b[1..]);
      assert a == [a[0]] + a[1..] && b == [b[0]] + b[1..];
    } else if b != [] {
      HeadIsLeast(a, b[0]);
    }
  }

  /** A sorted array stays as it is. */
  lemma SortKeepsSorted(objs: seq<PTPObject>)
    requires Sorted(objs)
    ensures SortByOid(objs) == objs
  {
    SortSorts(objs);
    SortedIsUnique(SortByOid(objs), objs);
  }

  // ---- One handle of a listing ----

  /** Where a handle stands in an array in no particular order. */
  function IndexOf(objs: seq<PTPObject>, handle: u32): (r: Option<nat>)
    ensures r.Some? ==> r.value < |objs| && objs[r.value].oid == handle
    ensures r.None? ==> forall i | 0 <= i < |objs| :: objs[i].oid != handle
  {
    if objs == [] then None
    else if objs[|objs| - 1].oid == handle then Some(|objs| - 1)
    else IndexOf(objs[..|objs| - 1], handle)
  }

  /** A handle not seen before. The root's listing may name all objects, so it tags none with a parent. */
  function Listed(handle: u32, folder: u32, storage: u32): PTPObject {
    var ob := NewObject(handle);
    var placed := if folder != SPECIAL && folder != 0
                  then ob.(oi := ob.oi.(parentObject := if handle == folder then 0 else folder),
                           flags := {ParentObjectLoaded})
                  else ob;
    if storage != SPECIAL
    then placed.(oi := placed.oi.(storageID := storage), flags := placed.flags + {StorageIdLoaded})
    else placed
  }

  /** A cached object that is listed again. */
  function Relisted(ob: PTPObject, folder: u32, storage: u32): PTPObject {
    var placed := if folder != SPECIAL
                  then ob.(oi := ob.oi.(parentObject := folder), flags := ob.flags + {ParentObjectLoaded})
                  else ob;
    if storage != SPECIAL
    then placed.(oi := placed.oi.(storageID := storage), flags := placed.flags + {StorageIdLoaded})
    else placed
  }

  function AddHandle(objs: seq<PTPObject>, handle: u32, folder: u32, storage: u32): seq<PTPObject> {
    match IndexOf(objs, handle)
    case Some(i) => objs[i := Relisted(objs[i], folder, storage)]
    case None => objs + [Listed(handle, folder, storage)]
  }

  function AddHandles(objs: seq<PTPObject>, handles: seq<u32>, folder: u32, storage: u32): seq<PTPObject> {
    if handles == [] then objs
    else AddHandle(AddHandles(objs, handles[..|handles| - 1], folder, storage), handles[|handles| - 1], folder, storage)
  }

  lemma {:induction false} AddHandlesDistinct(objs: seq<PTPObject>, handles: seq<u32>, folder: u32, storage: u32)
    requires Distinct(objs)
    ensures Distinct(AddHandles(objs, handles, folder, storage))
  {
    if handles != [] {
      AddHandlesDistinct(objs, handles[..|handles| - 1], folder, storage);
    }
  }

  // ---- ptp_list_folder on values ----

  /** The device's answers to one listing: to the requests of object_want, and to GetObjectHandles asked up
      to three times. */
  datatype ListReplies = ListReplies(folder: Replies, first: Reply<seq<u32>>, anyStorage: Reply<seq<u32>>,
                                     everything: Reply<seq<u32>>)

  /** The handles to add, and the folder and storage they are tagged with. */
  datatype Asked = Asked(handles: Reply<seq<u32>>, folder: u32, storage: u32)

  predicate Unsupported(r: Reply<seq<u32>>) {
    r.Err? && r.code == RC_PARAMETER_NOT_SUPPORTED
  }

  /** Asks for the folder in the storage, in any storage, and at last for everything there is; a failure of
      the last question counts as no handles at all. */
  function AskHandles(folder: u32, storage: u32, r: ListReplies): Asked {
    if !Unsupported(r.first) then Asked(r.first, folder, storage)
    else if !Unsupported(r.anyStorage) then Asked(r.anyStorage, folder, SPECIAL)
    else Asked(Ok(if r.everything.Ok? then r.everything.value else []), SPECIAL, SPECIAL)
  }

  function ChildrenOf(objs: seq<PTPObject>, folder: u32): seq<u32> {
    if objs == [] then []
    else ChildrenOf(objs[..|objs| - 1], folder)
         + (if objs[|objs| - 1].oi.parentObject == folder then [objs[|objs| - 1].oid] else [])
  }

  datatype ListOut = ListOut(ret: u16, cache: Cache, children: seq<u32>)

  /** The part of a listing that asks the device for handles. */
  ghost function ListHandles(c: Cache, folder: u32, storage: u32, r: ListReplies): ListOut {
    var asked := AskHandles(folder, storage, r);
    match asked.handles
    case Err(code) => ListOut(code, c, [])
    case Ok(handles) =>
      ListOut(RC_OK, c.(objects := SortByOid(AddHandles(c.objects, handles, asked.folder, asked.storage))), handles)
  }

  function MarkDirectory(ob: PTPObject): PTPObject {
    ob.(flags := ob.flags + {DirectoryLoaded})
  }

  ghost function ListFolder(c: Cache, mtpSupported: bool, storage: u32, handle: u32, r: ListReplies): ListOut {
    if handle == 0 || handle == SPECIAL then ListHandles(c, 0, storage, r) else
    var w := Want(c, mtpSupported, handle, {ObjectInfoLoaded}, r.folder);
    if w.ret != RC_OK then ListOut(w.ret, w.cache, []) else
    WantGrows(c, mtpSupported, handle, {ObjectInfoLoaded}, r.folder);
    var k := w.index.value;
    var ob := w.cache.objects[k];
    if ob.oi.objectFormat != OFC_ASSOCIATION then ListOut(RC_GENERAL_ERROR, w.cache, [])
    else if DirectoryLoaded in ob.flags then ListOut(RC_OK, w.cache, ChildrenOf(w.cache.objects, handle))
    else ListHandles(w.cache.(objects := w.cache.objects[k := MarkDirectory(ob)]), handle, storage, r)
  }
}
