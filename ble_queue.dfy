/**
 * The `BLEQueue` class: the pending-item array, `currentBroadcastItem` and
 * `timeoutID` are fields updated in place; every method is proved to agree
 * with the corresponding step of module Scheduler.
 */
module BleQueue {
  import opened Wrappers
  import opened QueueStore
  import opened Scheduler

  class BLEQueue {
    /** Which copy's broadcast path this queue follows. */
    const variant: Variant
    var queue: seq<Item>
    var currentBroadcastItem: Option<Item>
    /** The pending expiry timer, as the hold duration it was armed with; `None` is `false`. */
    var timeoutID: Option<int>
    /** Producer calls and radio updates performed so far. */
    var effects: seq<Effect>

    function Snapshot(): State
      reads this
    {
      State(queue, currentBroadcastItem, timeoutID, effects)
    }

    /** A broadcast session exists exactly when its timer is pending. */
    ghost predicate Valid()
      reads this
    {
      SessionConsistent(Snapshot())
    }

    constructor (variant: Variant)
      ensures this.variant == variant
      ensures Snapshot() == Initial() && Valid()
    {
      this.variant := variant;
      queue := [];
      currentBroadcastItem := None;
      timeoutID := None;
      effects := [];
    }

    /**
     * Queue an item under one of the duplicate policies; `now` is the clock
     * reading taken on entry.
     */
    method AddToQueue(id: string, priority: int, interval: int, ifDupeFound: string,
                      getDataCallback: Callback, setAdvertisingCallback: Option<Callback>, now: int)
      modifies this
      ensures Snapshot() == Scheduler.AddToQueue(old(Snapshot()), id, priority, interval, ifDupeFound,
                                                 getDataCallback, setAdvertisingCallback, now)
      ensures Valid() == old(Valid())
    {
      var item := NewItem(id, priority, interval, getDataCallback, setAdvertisingCallback, now);
      if ifDupeFound != "add" {
        // Array.prototype.find, whose callback overwrites the match under "replace"
        var found := false;
        var i := 0;
        while i < |queue|
          invariant 0 <= i <= |queue| && queue == old(queue)
          invariant forall j :: 0 <= j < i ==> queue[j].id != id
        {
          if queue[i].id == id {
            assert FirstWithId(queue, id) == Some(i);
            if ifDupeFound == "replace" {
              queue := queue[i := item.(entrytime := queue[i].entrytime)];
            }
            found := true;
            break;
          }
          i := i + 1;
        }
        if !found {
          queue := queue + [item];
        }
      } else {
        queue := queue + [item];
      }
    }

    /** Sort the queue by (priority, entry time) in place and shift off its head. */
    method GetNextQueueItem() returns (item: Option<Item>)
      modifies this
      ensures item == PopNext(old(queue)).item && queue == PopNext(old(queue)).rest
      ensures currentBroadcastItem == old(currentBroadcastItem) && timeoutID == old(timeoutID)
      ensures effects == old(effects)
    {
      queue := SortByKey(queue);
      if |queue| > 0 {
        item := Some(queue[0]);
        queue := queue[1..];
      } else {
        item := None;
      }
    }

    /** Cancel the pending timer and clear the session. */
    method EndBroadcast()
      modifies this
      ensures Snapshot() == Scheduler.EndBroadcast(old(Snapshot())) && Valid()
    {
      currentBroadcastItem := None;
      timeoutID := None;
    }

    /** End any session, make `item` current, transmit it and arm the timer for `interval`. */
    method Broadcast(item: Item, interval: int)
      modifies this
      ensures Snapshot() == Scheduler.Broadcast(variant, old(Snapshot()), item, interval) && Valid()
    {
      EndBroadcast();
      currentBroadcastItem := Some(item);
      match variant {
        case PerItemTransmitter =>
          if item.transmitter.Some? {
            effects := effects + [Transmitted(ViaCallback(item.transmitter.value, item))];
          } else {
            effects := effects + [Transmitted(DefaultAdvertising(DEFAULT_MANUFACTURER, item.data, interval))];
          }
        case DefaultAdvertisingOnly =>
          effects := effects + [Transmitted(DefaultAdvertising(DEFAULT_MANUFACTURER, item.data, interval))];
        case TimerOnly =>
      }
      timeoutID := Some(interval);
    }

    /**
     * The dispatch block of `pollQueue`: pop the next item and, if there is
     * one, store its producer's answer as its data and broadcast it for its
     * own interval.
     */
    method DispatchNext(env: Callback -> Payload)
      modifies this
      ensures Snapshot() == Dispatch(variant, old(Snapshot()), env)
    {
      var item := GetNextQueueItem();
      if item.Some? {
        effects := effects + [DataRequested(item.value.getData)];
        var data := env(item.value.getData);
        var resolved := item.value.(data := Some(data));
        Broadcast(resolved, resolved.interval);
      }
    }

    /** One poll tick; `env` gives what each data producer answers during it. */
    method PollQueue(env: Callback -> Payload)
      modifies this
      ensures Snapshot() == Scheduler.PollQueue(variant, old(Snapshot()), env)
      ensures old(Valid()) ==> Valid()
    {
      if currentBroadcastItem.Some? && currentBroadcastItem.value.priority == 1 {
        return;
      }
      // The source's `if(!this.queue) return;` never fires: the queue is always an array.
      if HasPriorityOne(queue) {
        DispatchNext(env);
      }
      if timeoutID.Some? {
        return;
      }
      DispatchNext(env);
    }

    /** The pending timer fires and ends the session. */
    method Expire()
      requires timeoutID.Some?
      modifies this
      ensures Snapshot() == Scheduler.Expire(old(Snapshot())) && Valid()
    {
      EndBroadcast();
    }
  }
}
