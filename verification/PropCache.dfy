/** The time-limited cache of property descriptions (ptp.c, the path without vendor extensions). */
module PropCache {
  import opened Bytes
  import opened DeviceReply
  import opened UsbPort

  const RC_OPERATION_NOT_SUPPORTED: u16 := 0x2005
  const DTC_UNDEF: u16 := 0

  /** A description: its code and data type, when it was cached, and all the rest of it. */
  datatype Desc = Desc(code: u32, dataType: u16, timestamp: int, content: seq<byte>)

  const EMPTY := Desc(0, DTC_UNDEF, 0, [])

  datatype GetOut = GetOut(ret: u16, desc: Desc, fetched: bool, cache: seq<Desc>)

  /** The first entry of a property; the cache may hold more. */
  function FirstWith(cache: seq<Desc>, code: u32): (r: Option<nat>)
    ensures r.Some? ==> r.value < |cache| && cache[r.value].code == code
    ensures r.Some? ==> forall i | 0 <= i < r.value :: cache[i].code != code
    ensures r.None? ==> forall i | 0 <= i < |cache| :: cache[i].code != code
  {
    if cache == [] then None
    else match FirstWith(cache[..|cache| - 1], code)
      case Some(i) => Some(i)
      case None => if cache[|cache| - 1].code == code then Some(|cache| - 1) else None
  }

  predicate Hit(e: Desc, cachetime: int, now: int) {
    e.dataType != DTC_UNDEF && e.timestamp + cachetime > now
  }

  /** What a fetch leaves: the reply in the entry at hand, or behind all others when there is none. */
  function Store(cache: seq<Desc>, slot: Option<nat>, supported: bool, now: int, reply: Reply<Desc>): GetOut
    requires slot.Some? ==> slot.value < |cache|
  {
    if !supported then GetOut(RC_OPERATION_NOT_SUPPORTED, EMPTY, false, cache) else
    match reply
    case Err(code) => GetOut(code, EMPTY, false, cache)
    case Ok(desc) =>
      var d := desc.(timestamp := now);
      GetOut(RC_OK, d, true, if slot.Some? then cache[slot.value := d] else cache + [d])
  }

  /** ptp_generic_getdevicepropdesc. An expired entry is emptied where it stands, and the fresh one goes
      behind all others, with the same code. */
  function Get(cache: seq<Desc>, cachetime: int, supported: bool, code: u32, now: int, reply: Reply<Desc>): GetOut {
    match FirstWith(cache, code)
    case None => Store(cache + [EMPTY], Some(|cache|), supported, now, reply)
    case Some(k) =>
      if Hit(cache[k], cachetime, now) then GetOut(RC_OK, cache[k], false, cache)
      else if cache[k].dataType != DTC_UNDEF then
        Store(cache[k := cache[k].(dataType := DTC_UNDEF)], None, supported, now, reply)
      else Store(cache, Some(k), supported, now, reply)
  }

  /** A set or a change event: the first entry is refreshed on the next query. */
  function Touch(cache: seq<Desc>, code: u32): seq<Desc> {
    match FirstWith(cache, code)
    case None => cache
    case Some(k) => cache[k := cache[k].(timestamp := 0)]
  }

  // ---- Runs ----

  datatype Op =
    | Query(code: u32, now: int, supported: bool, reply: Reply<Desc>)
    | SetValue(code: u32)
    | Changed(code: u32)

  function Step(cache: seq<Desc>, cachetime: int, op: Op): seq<Desc> {
    match op
    case Query(code, now, supported, reply) => Get(cache, cachetime, supported, code, now, reply).cache
    case SetValue(code) => Touch(cache, code)
    case Changed(code) => Touch(cache, code)
  }

  function Run(cachetime: int, ops: seq<Op>): seq<Desc> {
    if ops == [] then [] else Step(Run(cachetime, ops[..|ops| - 1]), cachetime, ops[|ops| - 1])
  }

  /** Operation `i` fetched the property from the device. */
  predicate Fetches(cachetime: int, ops: seq<Op>, i: nat, code: u32)
    requires i < |ops|
  {
    && ops[i].Query? && ops[i].code == code
    && Get(Run(cachetime, ops[..i]), cachetime, ops[i].supported, code, ops[i].now, ops[i].reply).fetched
  }

  /** Operation `i` sets the property or reports its change. */
  predicate Touches(ops: seq<Op>, i: nat, code: u32)
    requires i < |ops|
  {
    !ops[i].Query? && ops[i].code == code
  }

  /** The device answers with the code it was asked for. */
  predicate Echoed(ops: seq<Op>) {
    forall i | 0 <= i < |ops| && ops[i].Query? && ops[i].reply.Ok? :: ops[i].reply.value.code == ops[i].code
  }

  /** The first entry of a property is the only one consulted. */
  function View(cache: seq<Desc>, code: u32): Option<Desc> {
    match FirstWith(cache, code)
    case None => None
    case Some(k) => Some(cache[k])
  }

  lemma ViewAppend(cache: seq<Desc>, d: Desc, code: u32)
    ensures View(cache + [d], code)
         == if View(cache, code).Some? then View(cache, code) else if d.code == code then Some(d) else None
  {
    assert (cache + [d])[..|cache|] == cache;
  }

  lemma ViewUpdate(cache: seq<Desc>, k: nat, d: Desc, code: u32)
    requires FirstWith(cache, d.code) == Some(k)
    ensures View(cache[k := d], code) == if code == d.code then Some(d) else View(cache, code)
  {
    var r := cache[k := d];
    var a, b := FirstWith(cache, code), FirstWith(r, code);
    assert a.Some? ==> r[a.value].code == code;
    assert b.Some? ==> cache[b.value].code == code;
  }

  /** An operation on another property leaves the entry consulted for `code`; at most an empty one appears,
      under code 0. */
  lemma StepOther(cache: seq<Desc>, cachetime: int, op: Op, code: u32)
    requires op.code != code
    requires op.Query? && op.reply.Ok? ==> op.reply.value.code == op.code
    ensures var v, w := View(cache, code), View(Step(cache, cachetime, op), code);
      w == v || (v == None && w == Some(EMPTY))
  {
    match FirstWith(cache, op.code)
    case None =>
      if op.Query? {
        ViewAppend(cache, EMPTY, code);
        if op.supported && op.reply.Ok? {
          var d := op.reply.value.(timestamp := op.now);
          assert (cache + [EMPTY])[|cache| := d] == cache + [d];
          ViewAppend(cache, d, code);
        }
      }
    case Some(k) =>
      var emptied := cache[k].(dataType := DTC_UNDEF);
      ViewUpdate(cache, k, emptied, code);
      ViewUpdate(cache, k, cache[k].(timestamp := 0), code);
      if op.Query? && op.reply.Ok? {
        var d := op.reply.value.(timestamp := op.now);
        ViewUpdate(cache, k, d, code);
        ViewAppend(cache[k := emptied], d, code);
      }
  }

  /** What a query does to the entry consulted for its own property: a hit or a failure leaves it, an expired
      one is emptied although the fresh one was stored behind it, and only an empty one is refilled. */
  function Queried(v: Option<Desc>, cachetime: int, op: Op): Option<Desc>
    requires op.Query?
  {
    if v.Some? && Hit(v.value, cachetime, op.now) then v
    else if v.Some? && v.value.dataType != DTC_UNDEF then Some(v.value.(dataType := DTC_UNDEF))
    else if op.supported && op.reply.Ok? then Some(op.reply.value.(timestamp := op.now))
    else if v.None? && op.code == 0 then Some(EMPTY) else v
  }

  lemma StepOwn(cache: seq<Desc>, cachetime: int, op: Op)
    requires op.Query? && op.reply.Ok? ==> op.reply.value.code == op.code
    ensures var v, w := View(cache, op.code), View(Step(cache, cachetime, op), op.code);
      w == if op.Query? then Queried(v, cachetime, op)
           else if v.Some? then Some(v.value.(timestamp := 0)) else None
  {
    match FirstWith(cache, op.code)
    case None =>
      if op.Query? {
        ViewAppend(cache, EMPTY, op.code);
        if op.supported && op.reply.Ok? {
          var d := op.reply.value.(timestamp := op.now);
          assert (cache + [EMPTY])[|cache| := d] == cache + [d];
          ViewAppend(cache, d, op.code);
        }
      }
    case Some(k) =>
      var emptied := cache[k].(dataType := DTC_UNDEF);
      ViewUpdate(cache, k, emptied, op.code);
      ViewUpdate(cache, k, cache[k].(timestamp := 0), op.code);
      if op.Query? && op.reply.Ok? {
        var d := op.reply.value.(timestamp := op.now);
        ViewUpdate(cache, k, d, op.code);
        ViewAppend(cache[k := emptied], d, op.code);
      }
  }

  // ---- Freshness ----

  /** Operation `i` fetched `e`, and since then the property was neither fetched, set nor changed. */
  ghost predicate LatestFetch(cachetime: int, ops: seq<Op>, i: nat, e: Desc) {
    && i < |ops| && Fetches(cachetime, ops, i, e.code)
    && ops[i].reply.Ok? && e == ops[i].reply.value.(timestamp := ops[i].now)
    && forall j | i < j < |ops| :: !Fetches(cachetime, ops, j, e.code) && !Touches(ops, j, e.code)
  }

  /** The entry consulted for a property is empty, invalidated, or the latest fetch with nothing since. */
  ghost predicate Trusted(cachetime: int, ops: seq<Op>, code: u32) {
    var v := View(Run(cachetime, ops), code);
    v.Some? && v.value.dataType != DTC_UNDEF && v.value.timestamp != 0 ==>
      v.value.code == code && exists i: nat :: LatestFetch(cachetime, ops, i, v.value)
  }

  lemma FetchesPrefix(cachetime: int, ops: seq<Op>, more: Op, i: nat, code: u32)
    requires i < |ops|
    ensures Fetches(cachetime, ops + [more], i, code) == Fetches(cachetime, ops, i, code)
    ensures Touches(ops + [more], i, code) == Touches(ops, i, code)
  {
    assert (ops + [more])[..i] == ops[..i];
  }

  lemma LatestStays(cachetime: int, ops: seq<Op>, op: Op, i: nat, e: Desc)
    requires LatestFetch(cachetime, ops, i, e)
    requires !Fetches(cachetime, ops + [op], |ops|, e.code) && !Touches(ops + [op], |ops|, e.code)
    ensures LatestFetch(cachetime, ops + [op], i, e)
  {
    var all := ops + [op];
    forall j | i < j < |all| ensures !Fetches(cachetime, all, j, e.code) && !Touches(all, j, e.code) {
      if j < |ops| {
        FetchesPrefix(cachetime, ops, op, j, e.code);
      }
    }
    FetchesPrefix(cachetime, ops, op, i, e.code);
  }

  /** The last operation is a fetch that refilled the entry. */
  lemma LatestNow(cachetime: int, ops: seq<Op>, op: Op, e: Desc)
    requires op.Query? && op.supported && op.reply.Ok? && op.reply.value.code == op.code
    requires e == op.reply.value.(timestamp := op.now)
    requires var v := View(Run(cachetime, ops), op.code); !(v.Some? && Hit(v.value, cachetime, op.now))
    ensures LatestFetch(cachetime, ops + [op], |ops|, e)
  {
    assert (ops + [op])[..|ops|] == ops;
  }

  lemma OtherIsNoFetch(cachetime: int, ops: seq<Op>, op: Op, code: u32)
    requires op.code != code
    ensures !Fetches(cachetime, ops + [op], |ops|, code) && !Touches(ops + [op], |ops|, code)
  {
  }

  lemma TrustedStep(cachetime: int, ops: seq<Op>, op: Op, code: u32)
    requires Trusted(cachetime, ops, code)
    requires op.Query? && op.reply.Ok? ==> op.reply.value.code == op.code
    ensures Trusted(cachetime, ops + [op], code)
  {
    var cache := Run(cachetime, ops);
    var v := View(cache, code);
    assert (ops + [op])[..|ops|] == ops;
    var w := View(Run(cachetime, ops + [op]), code);
    if w.None? || w.value.dataType == DTC_UNDEF || w.value.timestamp == 0 { return; }
    if op.code != code {
      StepOther(cache, cachetime, op, code);
      var i: nat :| LatestFetch(cachetime, ops, i, v.value);
      OtherIsNoFetch(cachetime, ops, op, code);
      LatestStays(cachetime, ops, op, i, v.value);
    } else {
      StepOwn(cache, cachetime, op);
      if v.Some? && Hit(v.value, cachetime, op.now) {
        var i: nat :| LatestFetch(cachetime, ops, i, v.value);
        LatestStays(cachetime, ops, op, i, v.value);
      } else {
        LatestNow(cachetime, ops, op, w.value);
      }
    }
  }

  lemma {:induction false} AlwaysTrusted(cachetime: int, ops: seq<Op>, code: u32)
    requires Echoed(ops)
    ensures Trusted(cachetime, ops, code)
  {
    if ops != [] {
      var before, op := ops[..|ops| - 1], ops[|ops| - 1];
      AlwaysTrusted(cachetime, before, code);
      TrustedStep(cachetime, before, op, code);
      assert before + [op] == ops;
    }
  }

  /** Freshness, over every run on a device that echoes property codes: with the clock at least `cachetime`, a
      value returned without a fetch is the most recent fetch of that property, younger than `cachetime`, and
      the property was neither set nor reported changed since. Entries stored twice do no harm. */
  lemma HitsAreFresh(cachetime: int, ops: seq<Op>, code: u32, now: int, supported: bool, reply: Reply<Desc>)
    returns (i: nat)
    requires Echoed(ops) && now >= cachetime
    requires var g := Get(Run(cachetime, ops), cachetime, supported, code, now, reply); g.ret == RC_OK && !g.fetched
    ensures var g := Get(Run(cachetime, ops), cachetime, supported, code, now, reply);
      LatestFetch(cachetime, ops, i, g.desc) && g.desc.code == code && now < ops[i].now + cachetime
  {
    AlwaysTrusted(cachetime, ops, code);
    var v := View(Run(cachetime, ops), code);
    i :| LatestFetch(cachetime, ops, i, v.value);
  }

  /** What every query answers, over every run on a device that echoes property codes. A hit is the entry
      consulted, which with the clock at least `cachetime` is the most recent fetch with nothing since. Otherwise
      the device decides: its description, stamped with the time, or its code, or that it has no such operation. */
  lemma EveryAnswer(cachetime: int, ops: seq<Op>, code: u32, now: int, supported: bool, reply: Reply<Desc>)
    returns (i: nat)
    requires Echoed(ops)
    ensures var v := View(Run(cachetime, ops), code);
            var g := Get(Run(cachetime, ops), cachetime, supported, code, now, reply);
            var hit := v.Some? && v.value.dataType != 0 && now - v.value.timestamp < cachetime;
      && (hit ==>
           && g == GetOut(0x2001, v.value, false, Run(cachetime, ops))
           && (now >= cachetime ==> g.desc.code == code && LatestFetch(cachetime, ops, i, g.desc)))
      && (!hit && !supported ==> g.ret == 0x2005 && !g.fetched)
      && (!hit && supported && reply.Err? ==> g.ret == reply.code && !g.fetched)
      && (!hit && supported && reply.Ok? ==>
           g.ret == 0x2001 && g.fetched && g.desc == reply.value.(timestamp := now))
  {
    i := 0;
    var v := View(Run(cachetime, ops), code);
    if v.Some? && Hit(v.value, cachetime, now) && now >= cachetime {
      i := HitsAreFresh(cachetime, ops, code, now, supported, reply);
    }
  }

  /** The bound on the clock is exact: after a set or a change event the next query is answered from the
      cache, with the old value, if and only if the clock has not reached `cachetime`. */
  lemma InvalidationNeedsClock(cache: seq<Desc>, cachetime: int, code: u32, now: int, desc: Desc)
    requires desc.code == code
    requires View(cache, code).Some? && View(cache, code).value.dataType != DTC_UNDEF
    ensures var g := Get(Touch(cache, code), cachetime, true, code, now, Ok(desc));
      && (!g.fetched <==> now < cachetime)
      && (!g.fetched ==> g.desc == View(cache, code).value.(timestamp := 0))
  {
    StepOwn(cache, cachetime, SetValue(code));
  }

  /** Exactly when a fetch serves the next query: the description has a type, is still young, and filled an entry
      that was missing or empty. After an expired entry was fetched anew the next query fetches once more,
      however soon it comes: the entry consulted is the emptied one, in front of the fresh one. */
  lemma FetchServesNextExactly(cache: seq<Desc>, cachetime: int, code: u32, now: int, desc: Desc,
                               now': int, reply: Reply<Desc>)
    requires desc.code == code && reply.Ok? && Get(cache, cachetime, true, code, now, Ok(desc)).fetched
    ensures var v := View(cache, code);
            var next := Get(Get(cache, cachetime, true, code, now, Ok(desc)).cache, cachetime, true, code, now', reply);
      && (!next.fetched
          <==> desc.dataType != DTC_UNDEF && now' < now + cachetime && (v.None? || v.value.dataType == DTC_UNDEF))
      && (!next.fetched ==> next.ret == RC_OK && next.desc == desc.(timestamp := now))
  {
    StepOwn(cache, cachetime, Query(code, now, true, Ok(desc)));
  }

  // ---- As it runs ----

  class PTPProps {
    const cachetime: int
    const supported: bool
    var cache: seq<Desc>

    constructor (cachetime: int, supported: bool)
      ensures cache == Run(cachetime, []) && this.cachetime == cachetime && this.supported == supported
    {
      this.cachetime, this.supported, cache := cachetime, supported, [];
    }

    /** ptp_find_dpd_in_cache */
    method Find(code: u32) returns (r: Option<nat>)
      ensures r == FirstWith(cache, code)
    {
      var i := 0;
      while i < |cache|
        invariant 0 <= i <= |cache|
        invariant forall j | 0 <= j < i :: cache[j].code != code
      {
        if cache[i].code == code { return Some(i); }
        i := i + 1;
      }
      r := None;
    }

    /** ptp_generic_getdevicepropdesc; `reply` is what the device answers if it is asked. */
    method GetDesc(code: u32, now: int, reply: Reply<Desc>) returns (ret: u16, desc: Desc, fetched: bool)
      modifies `cache
      ensures GetOut(ret, desc, fetched, cache) == Get(old(cache), cachetime, supported, code, now, reply)
    {
      desc, fetched := EMPTY, false;
      var slot := Find(code);
      if slot == None {
        slot := Some(|cache|);
        cache := cache + [EMPTY];
      }
      if cache[slot.value].dataType != DTC_UNDEF {
        if cache[slot.value].timestamp + cachetime > now {
          return RC_OK, cache[slot.value], false;
        }
        cache := cache[slot.value := cache[slot.value].(dataType := DTC_UNDEF)];
        slot := None;
      }
      if !supported { return RC_OPERATION_NOT_SUPPORTED, desc, fetched; }
      if reply.Err? { return reply.code, desc, fetched; }
      if slot == None {
        slot := Some(|cache|);
        cache := cache + [EMPTY];
      }
      cache := cache[slot.value := reply.value];
      cache := cache[slot.value := cache[slot.value].(timestamp := now)];
      ret, desc, fetched := RC_OK, cache[slot.value], true;
    }

    /** The part that ptp_generic_setdevicepropvalue and the DevicePropChanged event share. */
    method Invalidate(code: u32)
      modifies `cache
      ensures cache == Touch(old(cache), code)
    {
      var at := Find(code);
      if at.Some? {
        cache := cache[at.value := cache[at.value].(timestamp := 0)];
      }
    }

    /** ptp_generic_setdevicepropvalue: the entry is invalidated whatever the device answers. */
    method SetValue(code: u32, answer: u16) returns (ret: u16)
      modifies `cache
      ensures cache == Step(old(cache), cachetime, Op.SetValue(code)) && ret == answer
    {
      Invalidate(code);
      ret := answer;
    }
  }
}
