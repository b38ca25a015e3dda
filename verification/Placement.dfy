/** Where an object stands in the tree of folders: what a listing and a property list make of its parent. */
module Placement {
  import opened Bytes
  import opened DeviceReply
  import opened UsbPort
  import opened ObjectCache
  import opened FolderListing
  import opened CacheRuns

  lemma AppendElements(objs: seq<PTPObject>, ob: PTPObject)
    ensures Elements(objs) <= Elements(objs + [ob]) && ob in Elements(objs + [ob])
  {
    var r := objs + [ob];
    assert r[|objs|] == ob;
    forall x | x in Elements(objs) ensures x in Elements(r) {
      var i :| 0 <= i < |objs| && objs[i] == x;
      assert r[i] == x;
    }
  }

  // ---- What a listing does to an object it meets ----

  /** An object after a listing: if it was named its parent is the listed folder and its storage the listed one,
      as far as the listing tags them; all else about it is as before. */
  predicate Retagged(ob: PTPObject, was: PTPObject, named: bool, tag: u32, storage: u32) {
    && ob.oid == was.oid && ob.canonFlags == was.canonFlags && ob.mtpProps == was.mtpProps
    && ob.oi == was.oi.(parentObject := if named && tag != SPECIAL then tag else was.oi.parentObject,
                        storageID := if named && storage != SPECIAL then storage else was.oi.storageID)
    && ob.flags == was.flags + (if named && tag != SPECIAL then {ParentObjectLoaded} else {})
                   + (if named && storage != SPECIAL then {StorageIdLoaded} else {})
  }

  lemma AddHandleRetags(objs: seq<PTPObject>, h: u32, tag: u32, storage: u32, ob: PTPObject) returns (ob': PTPObject)
    requires Distinct(objs) && ob in Elements(objs)
    ensures ob' in Elements(AddHandle(objs, h, tag, storage)) && Retagged(ob', ob, h == ob.oid, tag, storage)
  {
    var i :| 0 <= i < |objs| && objs[i] == ob;
    match IndexOf(objs, h)
    case Some(k) =>
      UpdatedElements(objs, k, Relisted(objs[k], tag, storage));
      ob' := if k == i then Relisted(ob, tag, storage) else ob;
    case None =>
      AppendElements(objs, Listed(h, tag, storage));
      ob' := ob;
  }

  lemma {:induction false} AddHandlesRetag(objs: seq<PTPObject>, handles: seq<u32>, tag: u32, storage: u32,
                                           ob: PTPObject)
    returns (ob': PTPObject)
    requires Distinct(objs) && ob in Elements(objs)
    ensures ob' in Elements(AddHandles(objs, handles, tag, storage))
    ensures Retagged(ob', ob, ob.oid in handles, tag, storage)
  {
    ob' := ob;
    if handles != [] {
      var before, h := handles[..|handles| - 1], handles[|handles| - 1];
      var mid := AddHandlesRetag(objs, before, tag, storage, ob);
      AddHandlesDistinct(objs, before, tag, storage);
      ob' := AddHandleRetags(AddHandles(objs, before, tag, storage), h, tag, storage, mid);
      assert ob.oid in handles <==> ob.oid == h || ob.oid in before;
    }
  }

  /** In a sorted array an object is where its handle's rank says. */
  lemma StandsAtRank(objs: seq<PTPObject>, ob: PTPObject)
    requires Sorted(objs) && ob in Elements(objs)
    ensures Found(objs, ob.oid) && objs[Rank(objs, ob.oid)] == ob
  {
    var i :| 0 <= i < |objs| && objs[i] == ob;
    RankIs(objs, ob.oid, i);
  }

  lemma SortedListingHas(objs: seq<PTPObject>, handles: seq<u32>, tag: u32, storage: u32, ob: PTPObject)
    requires Good(objs) && ob in Elements(objs)
    ensures var after := SortByOid(AddHandles(objs, handles, tag, storage));
      && Sorted(after) && Found(after, ob.oid)
      && Retagged(after[Rank(after, ob.oid)], ob, ob.oid in handles, tag, storage)
  {
    var ob' := AddHandlesRetag(objs, handles, tag, storage, ob);
    AddHandlesDistinct(objs, handles, tag, storage);
    SortSorts(AddHandles(objs, handles, tag, storage));
    StandsAtRank(SortByOid(AddHandles(objs, handles, tag, storage)), ob');
  }

  // ---- What a listing adds ----

  ghost function Named(handles: seq<u32>): set<u32> {
    set h | h in handles
  }

  lemma AddHandleOids(objs: seq<PTPObject>, h: u32, tag: u32, storage: u32)
    ensures Oids(AddHandle(objs, h, tag, storage)) == Oids(objs) + {h}
  {
    var r := AddHandle(objs, h, tag, storage);
    match IndexOf(objs, h)
    case Some(k) =>
      assert forall i | 0 <= i < |objs| :: r[i].oid == objs[i].oid;
    case None =>
      assert r[|objs|].oid == h;
      forall oid | oid in Oids(objs) ensures oid in Oids(r) {
        var i :| 0 <= i < |objs| && objs[i].oid == oid;
        assert r[i].oid == oid;
      }
  }

  /** The handles after a listing are the old ones and those named, and no others. */
  lemma {:induction false} AddHandlesOids(objs: seq<PTPObject>, handles: seq<u32>, tag: u32, storage: u32)
    ensures Oids(AddHandles(objs, handles, tag, storage)) == Oids(objs) + Named(handles)
  {
    if handles != [] {
      var before, h := handles[..|handles| - 1], handles[|handles| - 1];
      AddHandlesOids(objs, before, tag, storage);
      AddHandleOids(AddHandles(objs, before, tag, storage), h, tag, storage);
      assert Named(handles) == Named(before) + {h};
    } else {
      assert Oids(objs) + {} == Oids(objs);
    }
  }

  lemma {:induction false} AddHandlesAppend(objs: seq<PTPObject>, a: seq<u32>, b: seq<u32>, tag: u32, storage: u32)
    ensures AddHandles(objs, a + b, tag, storage) == AddHandles(AddHandles(objs, a, tag, storage), b, tag, storage)
  {
    if b == [] {
      assert a + b == a;
    } else {
      var n := |b| - 1;
      var all := a + b;
      assert all[..|all| - 1] == a + b[..n] && all[|all| - 1] == b[n];
      AddHandlesAppend(objs, a, b[..n], tag, storage);
      AddHandlesSnoc(objs, all, tag, storage);
      AddHandlesSnoc(AddHandles(objs, a, tag, storage), b, tag, storage);
    }
  }

  lemma AddHandlesSnoc(objs: seq<PTPObject>, handles: seq<u32>, tag: u32, storage: u32)
    requires handles != []
    ensures AddHandles(objs, handles, tag, storage)
         == AddHandle(AddHandles(objs, handles[..|handles| - 1], tag, storage), handles[|handles| - 1], tag, storage)
  {
  }

  /** A handle not cached before and named once gets an object with nothing loaded but its place: the listed
      folder as parent, unless that is the root or the handle itself, and the listed storage. */
  lemma NewlyListed(objs: seq<PTPObject>, a: seq<u32>, h: u32, b: seq<u32>, tag: u32, storage: u32)
    returns (ob: PTPObject)
    requires Distinct(objs) && h !in Oids(objs) && h !in a && h !in b
    ensures ob in Elements(AddHandles(objs, a + [h] + b, tag, storage))
    ensures ob.oid == h && ob.oi.handle == h && ob.canonFlags == 0 && ob.mtpProps == []
    ensures ob.oi == NO_INFO.(handle := h, parentObject := ob.oi.parentObject, storageID := ob.oi.storageID)
    ensures ob.oi.parentObject == if tag == SPECIAL || tag == 0 || tag == h then 0 else tag
    ensures ob.oi.storageID == if storage == SPECIAL then 0 else storage
    ensures ob.flags == (if tag == SPECIAL || tag == 0 then {} else {ParentObjectLoaded})
                        + (if storage == SPECIAL then {} else {StorageIdLoaded})
  {
    var first := AddHandles(objs, a, tag, storage);
    AddHandlesOids(objs, a, tag, storage);
    AddHandlesDistinct(objs, a, tag, storage);
    NotFirst(first, h);
    var added := Listed(h, tag, storage);
    AppendElements(first, added);
    assert (a + [h])[..|a|] == a;
    AddHandlesDistinct(objs, a + [h], tag, storage);
    ob := AddHandlesRetag(AddHandles(objs, a + [h], tag, storage), b, tag, storage, added);
    AddHandlesAppend(objs, a + [h], b, tag, storage);
  }

  lemma NotFirst(objs: seq<PTPObject>, h: u32)
    requires h !in Oids(objs)
    ensures IndexOf(objs, h) == None
  {
    assert forall i | 0 <= i < |objs| :: objs[i].oid in Oids(objs);
  }

  predicate NotSupported(r: Reply<seq<u32>>) {
    r == Err(0x2006)
  }

  /** Which question the device answered, and what becomes of an object cached before: the answer to the first
      question tags folder and storage, the one without a storage tags the folder only, and the last one, which
      asks for everything and whose failure counts as an empty answer, tags nothing. Any other failure is
      returned and leaves the cache alone. */
  lemma ListingAnswers(c: Cache, folder: u32, storage: u32, r: ListReplies)
    ensures var out := ListHandles(c, folder, storage, r);
            var any, all := NotSupported(r.first), NotSupported(r.first) && NotSupported(r.anyStorage);
            var answer := if all then (if r.everything.Ok? then r.everything else Ok([]))
                          else if any then r.anyStorage else r.first;
      && (answer.Err? ==> out == ListOut(answer.code, c, []))
      && (answer.Ok? ==> out.ret == RC_OK && out.children == answer.value && out.cache.overridesOi == c.overridesOi)
      && (answer.Ok? && Good(c.objects) ==>
           forall ob | ob in Elements(c.objects) ::
             && Found(out.cache.objects, ob.oid)
             && Retagged(out.cache.objects[Rank(out.cache.objects, ob.oid)], ob, ob.oid in answer.value,
                         if all then 0xffff_ffff else folder, if any then 0xffff_ffff else storage))
      && (answer.Ok? && Good(c.objects) ==> Oids(out.cache.objects) == Oids(c.objects) + Named(answer.value))
  {
    var out, asked := ListHandles(c, folder, storage, r), AskHandles(folder, storage, r);
    if asked.handles.Ok? && Good(c.objects) {
      var named := asked.handles.value;
      forall ob | ob in Elements(c.objects)
        ensures Found(out.cache.objects, ob.oid)
        ensures Retagged(out.cache.objects[Rank(out.cache.objects, ob.oid)], ob, ob.oid in named,
                         asked.folder, asked.storage)
      {
        SortedListingHas(c.objects, named, asked.folder, asked.storage, ob);
      }
      AddHandlesOids(c.objects, named, asked.folder, asked.storage);
      AddHandlesDistinct(c.objects, named, asked.folder, asked.storage);
      SortSorts(AddHandles(c.objects, named, asked.folder, asked.storage));
      SameOids(SortByOid(AddHandles(c.objects, named, asked.folder, asked.storage)),
               AddHandles(c.objects, named, asked.folder, asked.storage));
    }
  }

  lemma SameOids(a: seq<PTPObject>, b: seq<PTPObject>)
    requires Elements(a) == Elements(b)
    ensures Oids(a) == Oids(b)
  {
    OidsOfElements(a);
    OidsOfElements(b);
  }

  lemma OidsOfElements(objs: seq<PTPObject>)
    ensures Oids(objs) == set ob | ob in Elements(objs) :: ob.oid
  {
    forall i | 0 <= i < |objs| ensures objs[i].oid in (set ob | ob in Elements(objs) :: ob.oid) {
      assert objs[i] in Elements(objs);
    }
  }

  // ---- The children of a folder ----

  lemma {:induction false} ChildrenAre(objs: seq<PTPObject>, folder: u32, handle: u32)
    ensures handle in ChildrenOf(objs, folder)
       <==> exists ob :: ob in Elements(objs) && ob.oid == handle && ob.oi.parentObject == folder
  {
    if objs != [] {
      var n := |objs| - 1;
      var before, last := objs[..n], objs[n];
      ChildrenAre(before, folder, handle);
      AppendElements(before, last);
      assert objs == before + [last];
      forall x | x in Elements(objs) ensures x in Elements(before) || x == last {
        var i :| 0 <= i < |objs| && objs[i] == x;
        if i < n {
          assert before[i] == x;
        }
      }
    }
  }

  predicate Increasing(handles: seq<u32>) {
    forall i, j | 0 <= i < j < |handles| :: handles[i] < handles[j]
  }

  /** A cached listing returns every child once, in the order of the handles. */
  lemma {:induction false} ChildrenIncrease(objs: seq<PTPObject>, folder: u32)
    requires Sorted(objs)
    ensures Increasing(ChildrenOf(objs, folder))
    ensures objs == [] ==> ChildrenOf(objs, folder) == []
    ensures objs != [] ==> forall h | h in ChildrenOf(objs, folder) :: h <= objs[|objs| - 1].oid
  {
    if objs != [] {
      var n := |objs| - 1;
      var before := ChildrenOf(objs[..n], folder);
      ChildrenIncrease(objs[..n], folder);
      assert n > 0 ==> objs[..n][n - 1] == objs[n - 1];
      forall i | 0 <= i < |before| ensures before[i] < objs[n].oid {
        assert before[i] in before;
      }
    }
  }

  lemma ChildIs(objs: seq<PTPObject>, ob: PTPObject, folder: u32)
    requires Sorted(objs) && ob in Elements(objs)
    ensures ob.oid in ChildrenOf(objs, folder) <==> ob.oi.parentObject == folder
  {
    ChildrenAre(objs, folder, ob.oid);
    StandsAtRank(objs, ob);
    forall x | x in Elements(objs) && x.oid == ob.oid ensures x == ob {
      StandsAtRank(objs, x);
    }
  }

  // ---- What a property list does to an object ----

  /** The field of ObjectInfo that a property overrides, if it does. */
  datatype Key =
    | StorageKey | FormatKey | ProtectionKey | SizeKey | AssociationKey | DescKey
    | NameKey | CreatedKey | ModifiedKey | WordsKey | ParentKey | NoKey

  function KeyOf(v: PropValue): Key {
    match v
    case StorageID(_) => StorageKey
    case ObjectFormat(_) => FormatKey
    case ProtectionStatus(_) => ProtectionKey
    case ObjectSize(_) => SizeKey
    case AssociationType(_) => AssociationKey
    case AssociationDesc(_) => DescKey
    case FileName(name) => if name.Some? then NameKey else NoKey
    case DateCreated(_) => CreatedKey
    case DateModified(_) => ModifiedKey
    case Keywords(words) => if words.Some? then WordsKey else NoKey
    case ParentObject(_) => ParentKey
    case _ => NoKey
  }

  /** The last property of the object in a list that overrides the field. */
  function Last(props: seq<Prop>, handle: u32, key: Key): (r: Option<PropValue>)
    ensures r.Some? ==> KeyOf(r.value) == key
  {
    if props == [] then None else
    var p := props[|props| - 1];
    if p.handle == handle && KeyOf(p.value) == key then Some(p.value) else Last(props[..|props| - 1], handle, key)
  }

  /** The parent named last for the object in a property list. */
  function LastParent(props: seq<Prop>, handle: u32): Option<u32> {
    match Last(props, handle, ParentKey)
    case Some(v) => Some(v.parent)
    case None => None
  }

  /** The format named last for the object in a property list. */
  function LastFormat(props: seq<Prop>, handle: u32): Option<u16> {
    match Last(props, handle, FormatKey)
    case Some(v) => Some(v.format)
    case None => None
  }

  function Or<T>(o: Option<T>, otherwise: T): T {
    if o.Some? then o.value else otherwise
  }

  /** The field of ObjectInfo as a property. */
  function FieldOf(oi: ObjectInfo, key: Key): (v: PropValue)
    requires key != NoKey
    ensures key == ParentKey ==> v == ParentObject(oi.parentObject)
    ensures key == FormatKey ==> v == ObjectFormat(oi.objectFormat)
  {
    match key
    case StorageKey => StorageID(oi.storageID)
    case FormatKey => ObjectFormat(oi.objectFormat)
    case ProtectionKey => ProtectionStatus(oi.protectionStatus)
    case SizeKey => ObjectSize(oi.objectSize)
    case AssociationKey => AssociationType(oi.associationType)
    case DescKey => AssociationDesc(oi.associationDesc)
    case NameKey => FileName(oi.filename)
    case CreatedKey => DateCreated(oi.captureDate)
    case ModifiedKey => DateModified(oi.modificationDate)
    case WordsKey => Keywords(oi.keywords)
    case ParentKey => ParentObject(oi.parentObject)
  }

  lemma PropSets(oi: ObjectInfo, p: Prop, handle: u32, key: Key)
    requires key != NoKey
    ensures FieldOf(ApplyProp(oi, p, handle), key)
         == if p.handle == handle && KeyOf(p.value) == key then p.value else FieldOf(oi, key)
    ensures ApplyProp(oi, p, handle).handle == oi.handle
  {
  }

  /** ObjectInfo after an overriding property list, exactly: every field has the value named last for this object,
      else the old one; absent texts, sizes of another type and the properties of other objects count for
      nothing. */
  lemma {:induction false} PropsExactly(oi: ObjectInfo, props: seq<Prop>, handle: u32, key: Key)
    requires key != NoKey
    ensures FieldOf(ApplyProps(oi, props, handle), key) == Or(Last(props, handle, key), FieldOf(oi, key))
    ensures ApplyProps(oi, props, handle).handle == oi.handle
  {
    if props != [] {
      var before, p := props[..|props| - 1], props[|props| - 1];
      PropsExactly(oi, before, handle, key);
      PropSets(ApplyProps(oi, before, handle), p, handle, key);
    }
  }

  lemma PropsPlace(oi: ObjectInfo, props: seq<Prop>, handle: u32)
    ensures ApplyProps(oi, props, handle).parentObject == Or(LastParent(props, handle), oi.parentObject)
    ensures ApplyProps(oi, props, handle).objectFormat == Or(LastFormat(props, handle), oi.objectFormat)
  {
    PropsExactly(oi, props, handle, ParentKey);
    PropsExactly(oi, props, handle, FormatKey);
  }

  lemma MergePropsPlace(ob: PTPObject, overrides: bool, d: Replies)
    ensures var m := MergeProps(ob, ob.oid, overrides, d);
      && m.oi.parentObject == (if d.props.Ok? && overrides
                               then Or(LastParent(d.props.value, ob.oid), ob.oi.parentObject) else ob.oi.parentObject)
      && m.oi.objectFormat == (if d.props.Ok? && overrides
                               then Or(LastFormat(d.props.value, ob.oid), ob.oi.objectFormat) else ob.oi.objectFormat)
  {
    if d.props.Ok? {
      PropsPlace(ob.oi, d.props.value, ob.oid);
    }
  }

  // ---- A listing of the root ----

  /** Exactly which children a listing of the root takes out of a folder: those the device names, although it may
      name all its objects there, unless the listing fell back to one that tags nothing. */
  lemma RootListingTakesExactly(c: Cache, mtpSupported: bool, storage: u32, r: ListReplies, folder: u32, h: u32)
    requires Good(c.objects) && folder != 0 && h in ChildrenOf(c.objects, folder)
    requires ListFolder(c, mtpSupported, storage, 0, r).ret == RC_OK
    ensures var out, asked := ListFolder(c, mtpSupported, storage, 0, r), AskHandles(0, storage, r);
      && asked.handles.Ok?
      && (h in ChildrenOf(out.cache.objects, folder) <==> asked.folder == SPECIAL || h !in asked.handles.value)
  {
    var out, asked := ListFolder(c, mtpSupported, storage, 0, r), AskHandles(0, storage, r);
    ChildrenAre(c.objects, folder, h);
    var ob :| ob in Elements(c.objects) && ob.oid == h && ob.oi.parentObject == folder;
    SortedListingHas(c.objects, asked.handles.value, asked.folder, asked.storage, ob);
    var after := out.cache.objects;
    assert after[Rank(after, h)] in Elements(after);
    ChildIs(after, after[Rank(after, h)], folder);
  }
}
