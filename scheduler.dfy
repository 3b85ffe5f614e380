/**
 * The broadcast session and the per-tick scheduler of the BLE advertising
 * queue, as functions on a snapshot of the queue object's state. The class
 * in module BleQueue runs the same steps in place and is proved to agree.
 */
module Scheduler {
  import opened Wrappers
  import opened QueueStore

  /** Manufacturer id of the default advertising record. */
  const DEFAULT_MANUFACTURER: int := 0x0590

  /**
   * The three broadcast paths found among the copies of the queue:
   * the item's own transmitter, falling back to default advertising
   * (bleQ.js and the inline copies in the use_module and v2 sketches);
   * default advertising always (the .old sketch); no transmission at all,
   * only the timer (the browser test page).
   */
  datatype Variant = PerItemTransmitter | DefaultAdvertisingOnly | TimerOnly

  /** One radio update: through the item's transmitter, or the default advertising record. */
  datatype Transmission =
    | ViaCallback(transmitter: Callback, item: Item)
    | DefaultAdvertising(manufacturer: int, data: Option<Payload>, interval: int)

  /** The outward effects of the queue, in the order they happen. */
  datatype Effect = DataRequested(producer: Callback) | Transmitted(transmission: Transmission)

  /**
   * The queue object's state: pending items, `currentBroadcastItem`, the
   * pending expiry timer (`timeoutID`, here the hold duration it was armed
   * with), and the effects performed so far.
   */
  datatype State = State(queue: seq<Item>, current: Option<Item>, timer: Option<int>, effects: seq<Effect>)

  /** A broadcast session exists exactly when its expiry timer is pending. */
  predicate SessionConsistent(s: State) {
    s.current.Some? <==> s.timer.Some?
  }

  /** The state the constructor sets up. */
  function Initial(): (r: State)
    ensures SessionConsistent(r) && r.queue == [] && r.effects == []
    ensures r.current.None? && r.timer.None?
  {
    State([], None, None, [])
  }

  predicate HasPriorityOne(q: seq<Item>) {
    exists i :: 0 <= i < |q| && q[i].priority == 1
  }

  predicate AllPrioritiesPositive(q: seq<Item>) {
    forall i :: 0 <= i < |q| ==> q[i].priority >= 1
  }

  predicate CurrentIsPriorityOne(s: State) {
    s.current.Some? && s.current.value.priority == 1
  }

  /** How many data producers were invoked in a run of effects. */
  function Requests(effects: seq<Effect>): nat {
    if effects == [] then 0
    else (if effects[0].DataRequested? then 1 else 0) + Requests(effects[1..])
  }

  lemma {:induction false} RequestsAppend(a: seq<Effect>, b: seq<Effect>)
    ensures Requests(a + b) == Requests(a) + Requests(b)
  {
    if a == [] {
      assert a + b == b;
    } else {
      assert (a + b)[1..] == a[1..] + b;
      RequestsAppend(a[1..], b);
    }
  }

  /**
   * `addToQueue`, stamping the new item with the clock reading `now`: only
   * the pending list changes, under the duplicate policy of `Admit`.
   */
  function AddToQueue(s: State, id: string, priority: int, interval: int, mode: string,
                      getData: Callback, transmitter: Option<Callback>, now: int): (r: State)
    ensures r.current == s.current && r.timer == s.timer && r.effects == s.effects
    ensures SessionConsistent(s) ==> SessionConsistent(r)
    ensures r.queue == Admit(s.queue, NewItem(id, priority, interval, getData, transmitter, now), mode)
  {
    s.(queue := Admit(s.queue, NewItem(id, priority, interval, getData, transmitter, now), mode))
  }

  /** `endBroadcast`: cancel the timer and clear the session, whether or not one exists. */
  function EndBroadcast(s: State): (r: State)
    ensures SessionConsistent(r) && r.current.None?
    ensures r.queue == s.queue && r.effects == s.effects
  {
    s.(current := None, timer := None)
  }

  lemma EndBroadcastIdempotent(s: State)
    ensures EndBroadcast(EndBroadcast(s)) == EndBroadcast(s)
  {
  }

  /** The radio update `broadcast` performs for an item, per variant. */
  function Transmit(v: Variant, item: Item, interval: int): (r: seq<Effect>)
    ensures Requests(r) == 0
    ensures |r| == if v.TimerOnly? then 0 else 1
    ensures v.PerItemTransmitter? && item.transmitter.Some? ==>
      r == [Transmitted(ViaCallback(item.transmitter.value, item))]
    ensures v.DefaultAdvertisingOnly? || (v.PerItemTransmitter? && item.transmitter.None?) ==>
      r == [Transmitted(DefaultAdvertising(DEFAULT_MANUFACTURER, item.data, interval))]
  {
    match v
    case PerItemTransmitter =>
      if item.transmitter.Some? then [Transmitted(ViaCallback(item.transmitter.value, item))]
      else [Transmitted(DefaultAdvertising(DEFAULT_MANUFACTURER, item.data, interval))]
    case DefaultAdvertisingOnly =>
      [Transmitted(DefaultAdvertising(DEFAULT_MANUFACTURER, item.data, interval))]
    case TimerOnly => []
  }

  /**
   * `broadcast`: end any session first, make `item` current, transmit it and
   * arm the expiry timer.
   */
  function Broadcast(v: Variant, s: State, item: Item, interval: int): (r: State)
    ensures SessionConsistent(r)
    ensures r.current == Some(item) && r.timer == Some(interval)
    ensures r.queue == s.queue && r.effects == s.effects + Transmit(v, item, interval)
  {
    var ended := EndBroadcast(s);
    ended.(current := Some(item), effects := ended.effects + Transmit(v, item, interval),
           timer := Some(interval))
  }

  /** An item with its data producer's current answer stored as `data`. */
  function Resolve(item: Item, env: Callback -> Payload): Item {
    item.(data := Some(env(item.getData)))
  }

  /**
   * One dispatch step of `pollQueue`: pop the next item; if there is one,
   * ask its producer for data (`env` answers for every producer at this
   * tick) and broadcast it for its own interval.
   */
  function Dispatch(v: Variant, s: State, env: Callback -> Payload): (r: State)
    ensures s.queue == [] ==> r == s
    ensures s.queue != [] ==> DispatchedFrom(v, s, r, PopNext(s.queue).item.value, env)
  {
    var p := PopNext(s.queue);
    match p.item
    case None => s.(queue := p.rest)
    case Some(item) =>
      Broadcast(v, s.(queue := p.rest, effects := s.effects + [DataRequested(item.getData)]),
                Resolve(item, env), item.interval)
  }

  /** True when `r` came from `s` by one dispatch of `x`. */
  predicate DispatchedFrom(v: Variant, s: State, r: State, x: Item, env: Callback -> Payload) {
    && x in s.queue
    && (forall i :: 0 <= i < |s.queue| ==> Precedes(x, s.queue[i]))
    && multiset(s.queue) == multiset(r.queue) + multiset{x}
    && r.current == Some(Resolve(x, env))
    && r.timer == Some(x.interval)
    && r.effects == s.effects + [DataRequested(x.getData)] + Transmit(v, Resolve(x, env), x.interval)
  }

  /**
   * `pollQueue`. A priority-1 broadcast is never interrupted; a queued
   * priority-1 item is dispatched at once, replacing any other session;
   * otherwise the next item is dispatched only when no timer is pending.
   */
  function PollQueue(v: Variant, s: State, env: Callback -> Payload): (r: State)
    ensures CurrentIsPriorityOne(s) ==> r == s
    ensures !HasPriorityOne(s.queue) && s.timer.Some? ==> r == s
    ensures SessionConsistent(s) ==> SessionConsistent(r)
    ensures |r.effects| >= |s.effects| && r.effects[..|s.effects|] == s.effects
    ensures Requests(r.effects[|s.effects|..]) <= 1
    ensures multiset(r.queue) <= multiset(s.queue) && |r.queue| >= |s.queue| - 1
  {
    if CurrentIsPriorityOne(s) then s
    else
      var s1 := if HasPriorityOne(s.queue) then Dispatch(v, s, env) else s;
      if s1.timer.Some? then
        TickEffects(v, s, s1, env);
        s1
      else
        assert s1 == s;
        TickEffects(v, s, Dispatch(v, s, env), env);
        Dispatch(v, s1, env)
  }

  lemma TickEffects(v: Variant, s: State, r: State, env: Callback -> Payload)
    requires r == s || r == Dispatch(v, s, env)
    ensures |r.effects| >= |s.effects| && r.effects[..|s.effects|] == s.effects
    ensures Requests(r.effects[|s.effects|..]) <= 1
    ensures multiset(r.queue) <= multiset(s.queue) && |r.queue| >= |s.queue| - 1
  {
    if r != s {
      DispatchEffects(v, s, r, PopNext(s.queue).item.value, env);
    } else {
      assert r.effects[|s.effects|..] == [];
    }
  }

  /** One dispatch appends one data request and the transmission, and takes one item off the queue. */
  lemma DispatchEffects(v: Variant, s: State, r: State, x: Item, env: Callback -> Payload)
    requires DispatchedFrom(v, s, r, x, env)
    ensures |r.effects| >= |s.effects| && r.effects[..|s.effects|] == s.effects
    ensures Requests(r.effects[|s.effects|..]) == 1
    ensures multiset(r.queue) <= multiset(s.queue) && |r.queue| == |s.queue| - 1
  {
    var added := [DataRequested(x.getData)] + Transmit(v, Resolve(x, env), x.interval);
    assert r.effects == s.effects + added;
    assert r.effects[|s.effects|..] == added;
    RequestsAppend([DataRequested(x.getData)], Transmit(v, Resolve(x, env), x.interval));
    assert |multiset(s.queue)| == |multiset(r.queue)| + 1;
  }

  /** The expiry timer fires: the session ends. */
  function Expire(s: State): (r: State)
    requires s.timer.Some?
    ensures SessionConsistent(r) && r.current.None? && r.queue == s.queue
    ensures r.effects == s.effects
  {
    EndBroadcast(s)
  }

  /**
   * A queued priority-1 item preempts any session that is not itself
   * priority 1, whatever its remaining hold time: the oldest priority-1
   * item is popped, resolved and made current (priorities below 1 would
   * sort ahead of it, so they are excluded).
   */
  lemma PriorityOnePreempts(v: Variant, s: State, env: Callback -> Payload)
    requires !CurrentIsPriorityOne(s) && HasPriorityOne(s.queue) && AllPrioritiesPositive(s.queue)
    ensures exists x :: (DispatchedFrom(v, s, PollQueue(v, s, env), x, env) && x.priority == 1 &&
      forall i :: 0 <= i < |s.queue| && s.queue[i].priority == 1 ==> x.entrytime <= s.queue[i].entrytime)
  {
    var x := PopNext(s.queue).item.value;
    var j :| 0 <= j < |s.queue| && s.queue[j].priority == 1;
    assert Precedes(x, s.queue[j]);
    assert x in s.queue;
  }

  /**
   * With no session, no timer and no priority-1 item, the tick dispatches
   * the item first in (priority, entry time) order, if any.
   */
  lemma IdleTickDispatchesNext(v: Variant, s: State, env: Callback -> Payload)
    requires s.current.None? && s.timer.None? && !HasPriorityOne(s.queue)
    ensures s.queue == [] ==> PollQueue(v, s, env) == s
    ensures s.queue != [] ==> exists x :: DispatchedFrom(v, s, PollQueue(v, s, env), x, env)
  {
    if s.queue != [] {
      var x := PopNext(s.queue).item.value;
      assert DispatchedFrom(v, s, PollQueue(v, s, env), x, env);
    }
  }

  /**
   * Admitting a priority-1 item while a lower-priority session is on the air
   * makes the very next tick replace that session by a priority-1 one, unless
   * the admission was a keep-if-present call that found the id already queued.
   */
  lemma AdmitPriorityOneThenTick(v: Variant, s: State, id: string, interval: int, mode: string,
                                 getData: Callback, transmitter: Option<Callback>, now: int,
                                 env: Callback -> Payload)
    requires SessionConsistent(s) && !CurrentIsPriorityOne(s) && AllPrioritiesPositive(s.queue)
    requires mode == "add" || mode == "replace" || !HasId(s.queue, id)
    ensures
      var r := PollQueue(v, AddToQueue(s, id, 1, interval, mode, getData, transmitter, now), env);
      CurrentIsPriorityOne(r) && SessionConsistent(r)
  {
    var s1 := AddToQueue(s, id, 1, interval, mode, getData, transmitter, now);
    AdmitPriorityOne(s.queue, NewItem(id, 1, interval, getData, transmitter, now), mode);
    PriorityOnePreempts(v, s1, env);
  }

  /** Admitting a priority-1 item leaves one queued, unless keep-if-present found the id. */
  lemma AdmitPriorityOne(q: seq<Item>, item: Item, mode: string)
    requires item.priority == 1 && AllPrioritiesPositive(q)
    requires mode == "add" || mode == "replace" || !HasId(q, item.id)
    ensures HasPriorityOne(Admit(q, item, mode)) && AllPrioritiesPositive(Admit(q, item, mode))
  {
    var r := Admit(q, item, mode);
    if mode != "add" && HasId(q, item.id) {
      var i :| 0 <= i < |q| && q[i].id == item.id && (forall j :: 0 <= j < i ==> q[j].id != item.id) &&
        r[i] == item.(entrytime := q[i].entrytime) &&
        (forall j :: 0 <= j < |q| && j != i ==> r[j] == q[j]);
      assert r[i].priority == 1;
    } else {
      assert r[|r| - 1] == item;
    }
  }

  /**
   * A priority-1 item that arrives during a priority-1 broadcast waits: the
   * tick changes nothing, and once the timer has expired the next tick
   * dispatches the oldest waiting priority-1 item.
   */
  lemma PriorityOneWaitsForPriorityOne(v: Variant, s: State, env: Callback -> Payload)
    requires SessionConsistent(s) && CurrentIsPriorityOne(s)
    requires HasPriorityOne(s.queue) && AllPrioritiesPositive(s.queue)
    ensures PollQueue(v, s, env) == s
    ensures exists x :: DispatchedFrom(v, Expire(s), PollQueue(v, Expire(s), env), x, env) && x.priority == 1
  {
    PriorityOnePreempts(v, Expire(s), env);
  }
}
