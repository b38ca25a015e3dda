/** Internal handling of camera events (ptp.c): every event is queued for the application, and some also
    invalidate what is cached. */
module Session {
  import opened Bytes
  import opened EventQueue
  import ObjectCache
  import ObjectStore
  import PropCache

  const EC_STORE_ADDED: u16 := 0x4004
  const EC_STORE_REMOVED: u16 := 0x4005
  const EC_DEVICE_PROP_CHANGED: u16 := 0x4006

  class PTPSession {
    const events: PTPEvents
    const props: PropCache.PTPProps
    const objects: ObjectStore.PTPObjects

    ghost predicate Valid()
      reads objects
    {
      objects.Valid()
    }

    constructor (events: PTPEvents, props: PropCache.PTPProps, objects: ObjectStore.PTPObjects)
      requires objects.Valid()
      ensures Valid() && this.events == events && this.props == props && this.objects == objects
    {
      this.events, this.props, this.objects := events, props, objects;
    }

    /** handle_event_internal; the first parameter names the property, a missing one reads as 0. `storageIDs` is
        what the device lists as its stores if it is asked. */
    method HandleInternally(event: Event, storageIDs: seq<u32>)
      requires Valid()
      modifies props, objects
      ensures Valid() && objects.overridesOi == old(objects.overridesOi)
      ensures props.cache == if event.code == 0x4006
                             then PropCache.Touch(old(props.cache),
                                                  if event.params == [] then 0 else event.params[0])
                             else old(props.cache)
      ensures objects.objects == if event.code == 0x4004 || event.code == 0x4005
                                 then [] else old(objects.objects)
      ensures objects.storageIDs == if event.code == 0x4004 || event.code == 0x4005
                                    then storageIDs else old(objects.storageIDs)
      ensures objects.storageChanged == (event.code == 0x4004 || event.code == 0x4005 || old(objects.storageChanged))
    {
      if event.code == EC_DEVICE_PROP_CHANGED {
        props.Invalidate(if |event.params| > 0 then event.params[0] else 0);
      } else if event.code == EC_STORE_ADDED || event.code == EC_STORE_REMOVED {
        objects.StoresChange(storageIDs);
      }
    }

    /** The common end of ptp_check_event, ptp_check_event_queue and ptp_wait_event for an event that came. */
    method Receive(event: Event, storageIDs: seq<u32>)
      requires Valid()
      modifies events, props, objects
      ensures Valid()
      ensures events.AsHistory() == Step(old(events.AsHistory()), Arrive(event))
      ensures props.cache == if event.code == 0x4006
                             then PropCache.Step(old(props.cache), props.cachetime,
                                                 PropCache.Changed(if event.params == [] then 0 else event.params[0]))
                             else old(props.cache)
      ensures objects.objects == if event.code == 0x4004 || event.code == 0x4005
                                 then [] else old(objects.objects)
      ensures objects.overridesOi == old(objects.overridesOi)
      ensures objects.storageIDs == if event.code == 0x4004 || event.code == 0x4005
                                    then storageIDs else old(objects.storageIDs)
      ensures objects.storageChanged == (event.code == 0x4004 || event.code == 0x4005 || old(objects.storageChanged))
    {
      events.Add(event);
      HandleInternally(event, storageIDs);
    }
  }
}
