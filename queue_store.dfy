/**
 * The queue store of the BLE advertising queue: the pending items, the
 * duplicate-handling rule of `addToQueue`, and the (priority, entry time)
 * order used by `getNextQueueItem`.
 */
module QueueStore {
  import opened Wrappers

  /** An opaque capability passed in by the caller (a data producer or a transmitter). */
  datatype Callback = Callback(name: string)

  /** An opaque payload, as returned by a data producer. */
  datatype Payload = Payload(blob: seq<int>)

  /** A queue item; `data` stays `None` until the item is dispatched. */
  datatype Item = Item(
    id: string,
    priority: int,
    interval: int,
    entrytime: int,
    getData: Callback,
    transmitter: Option<Callback>,
    data: Option<Payload>)

  /** The item `addToQueue` builds, stamped with the clock reading `now`. */
  function NewItem(id: string, priority: int, interval: int, getData: Callback,
                   transmitter: Option<Callback>, now: int): Item
  {
    Item(id, priority, interval, now, getData, transmitter, None)
  }

  // ---------------------------------------------------------------------------
  // Duplicate handling
  // ---------------------------------------------------------------------------

  predicate HasId(q: seq<Item>, id: string) {
    exists j :: 0 <= j < |q| && q[j].id == id
  }

  /** The index `Array.prototype.find` stops at: the first entry with this id. */
  function FirstWithId(q: seq<Item>, id: string): (r: Option<nat>)
    ensures r.Some? ==> r.value < |q| && q[r.value].id == id
    ensures r.Some? ==> forall j :: 0 <= j < r.value ==> q[j].id != id
    ensures r.None? <==> !HasId(q, id)
  {
    if q == [] then None
    else if q[0].id == id then Some(0)
    else match FirstWithId(q[1..], id)
      case None => None
      case Some(k) => Some(k + 1)
  }

  /** How many entries carry this id. */
  function CountId(q: seq<Item>, id: string): nat {
    if q == [] then 0 else (if q[0].id == id then 1 else 0) + CountId(q[1..], id)
  }

  /**
   * `addToQueue` on the queue `q` with the freshly built `item`: mode "add"
   * always appends; "replace" overwrites the first entry with the same id but
   * keeps that entry's entry time; any other mode leaves an existing entry
   * alone; without an entry of that id both append.
   */
  function Admit(q: seq<Item>, item: Item, mode: string): (r: seq<Item>)
    ensures mode == "add" ==> r == q + [item]
    ensures mode != "add" && !HasId(q, item.id) ==> r == q + [item]
    ensures mode != "add" && mode != "replace" && HasId(q, item.id) ==> r == q
    ensures mode == "replace" && HasId(q, item.id) ==>
      |r| == |q| &&
      exists i :: 0 <= i < |q| && q[i].id == item.id &&
        (forall j :: 0 <= j < i ==> q[j].id != item.id) &&
        r[i] == item.(entrytime := q[i].entrytime) &&
        (forall j :: 0 <= j < |q| && j != i ==> r[j] == q[j])
  {
    if mode != "add" then
      match FirstWithId(q, item.id)
      case Some(i) =>
        if mode == "replace" then q[i := item.(entrytime := q[i].entrytime)] else q
      case None => q + [item]
    else
      q + [item]
  }

  lemma {:induction false} CountIdAppend(q: seq<Item>, x: Item, id: string)
    ensures CountId(q + [x], id) == CountId(q, id) + (if x.id == id then 1 else 0)
  {
    if q != [] {
      assert (q + [x])[1..] == q[1..] + [x];
      CountIdAppend(q[1..], x, id);
    }
  }

  lemma {:induction false} CountIdUpdate(q: seq<Item>, i: nat, x: Item, id: string)
    requires i < |q| && x.id == q[i].id
    ensures CountId(q[i := x], id) == CountId(q, id)
  {
    if i > 0 {
      assert q[i := x][1..] == q[1..][i - 1 := x];
      CountIdUpdate(q[1..], i - 1, x, id);
    }
  }

  lemma {:induction false} CountIdPositive(q: seq<Item>, id: string)
    ensures CountId(q, id) > 0 <==> HasId(q, id)
  {
    if q != [] {
      CountIdPositive(q[1..], id);
      if HasId(q[1..], id) {
        var j :| 0 <= j < |q[1..]| && q[1..][j].id == id;
        assert q[j + 1].id == id;
      }
      if HasId(q, id) && q[0].id != id {
        var j :| 0 <= j < |q| && q[j].id == id;
        assert q[1..][j - 1].id == id;
      }
    }
  }

  /**
   * The number of entries with the admitted id: "add" always adds one; any
   * other mode leaves it unchanged when an entry exists and makes it one
   * otherwise. Entries with other ids are never counted differently.
   */
  lemma AdmitCount(q: seq<Item>, item: Item, mode: string, id: string)
    ensures CountId(Admit(q, item, mode), id) ==
      if id != item.id then CountId(q, id)
      else if mode == "add" then CountId(q, id) + 1
      else if CountId(q, id) == 0 then 1
      else CountId(q, id)
  {
    CountIdPositive(q, item.id);
    CountIdAppend(q, item, id);
    if mode != "add" {
      match FirstWithId(q, item.id)
      case Some(i) =>
        if mode == "replace" { CountIdUpdate(q, i, item.(entrytime := q[i].entrytime), id); }
      case None =>
    }
  }

  /** One call of a sequence of "replace" admissions of the same id. */
  datatype Refresh = Refresh(priority: int, interval: int, getData: Callback,
                             transmitter: Option<Callback>, now: int)

  function ReplaceAll(q: seq<Item>, id: string, calls: seq<Refresh>): seq<Item>
    decreases |calls|
  {
    if calls == [] then q
    else
      var c := calls[0];
      ReplaceAll(Admit(q, NewItem(id, c.priority, c.interval, c.getData, c.transmitter, c.now), "replace"),
                 id, calls[1..])
  }

  lemma {:induction false} SingleEntryIsFirst(q: seq<Item>, id: string, i: nat)
    requires CountId(q, id) == 1 && i < |q| && q[i].id == id
    ensures FirstWithId(q, id) == Some(i)
  {
    if i > 0 {
      if q[0].id == id {
        assert q[1..][i - 1].id == id;
        CountIdPositive(q[1..], id);
        assert false;
      }
      SingleEntryIsFirst(q[1..], id, i - 1);
    }
  }

  /** The entry a "replace" call with `c` leaves when the entry time `t` is kept. */
  function Refreshed(id: string, c: Refresh, t: int): Item {
    NewItem(id, c.priority, c.interval, c.getData, c.transmitter, t)
  }

  /** One "replace" call on a queue with a single entry for the id overwrites that entry in place. */
  lemma ReplaceStep(q: seq<Item>, id: string, i: nat, c: Refresh)
    requires CountId(q, id) == 1 && i < |q| && q[i].id == id
    ensures Admit(q, Refreshed(id, c, c.now), "replace") == q[i := Refreshed(id, c, q[i].entrytime)]
    ensures CountId(q[i := Refreshed(id, c, q[i].entrytime)], id) == 1
  {
    SingleEntryIsFirst(q, id, i);
    CountIdUpdate(q, i, Refreshed(id, c, q[i].entrytime), id);
  }

  /** The first of a run of "replace" calls, on a queue with a single entry for the id. */
  lemma ReplaceAllStep(q: seq<Item>, id: string, calls: seq<Refresh>, i: nat)
    requires CountId(q, id) == 1 && i < |q| && q[i].id == id && calls != []
    ensures ReplaceAll(q, id, calls) == ReplaceAll(q[i := Refreshed(id, calls[0], q[i].entrytime)], id, calls[1..])
    ensures CountId(q[i := Refreshed(id, calls[0], q[i].entrytime)], id) == 1
  {
    ReplaceStep(q, id, i, calls[0]);
  }

  /**
   * "replace" calls on a queue holding a single entry for the id overwrite
   * that entry where it stands: it keeps its entry time and takes the last
   * call's other fields; every other entry is untouched.
   */
  lemma {:induction false} ReplaceAllInPlace(q: seq<Item>, id: string, calls: seq<Refresh>, i: nat)
    requires CountId(q, id) == 1 && i < |q| && q[i].id == id && calls != []
    ensures ReplaceAll(q, id, calls) == q[i := Refreshed(id, calls[|calls| - 1], q[i].entrytime)]
    decreases |calls|
  {
    ReplaceAllStep(q, id, calls, i);
    if |calls| > 1 {
      var t := q[i].entrytime;
      var q1 := q[i := Refreshed(id, calls[0], t)];
      assert q1[i].id == id && q1[i].entrytime == t;
      ReplaceAllInPlace(q1, id, calls[1..], i);
      assert calls[1..][|calls[1..]| - 1] == calls[|calls| - 1];
      UpdateTwice(q, i, Refreshed(id, calls[0], t), Refreshed(id, calls[|calls| - 1], t));
    }
  }

  /** A second update at the same index wins over the first. */
  lemma UpdateTwice(q: seq<Item>, i: nat, x: Item, y: Item)
    requires i < |q|
    ensures q[i := x][i := y] == q[i := y]
  {
  }

  /**
   * Repeated "replace" admissions of one id, starting from a queue without
   * that id, append exactly one entry for it after the old entries: its
   * entry time is the FIRST call's clock reading, and everything else comes
   * from the LAST call.
   */
  lemma {:induction false} ReplaceKeepsFirstEntrytime(q: seq<Item>, id: string, calls: seq<Refresh>)
    requires !HasId(q, id) && calls != []
    ensures ReplaceAll(q, id, calls) == q + [Refreshed(id, calls[|calls| - 1], calls[0].now)]
    ensures CountId(ReplaceAll(q, id, calls), id) == 1
  {
    var c := calls[0];
    var first := Refreshed(id, c, c.now);
    var q1 := q + [first];
    assert Admit(q, first, "replace") == q1;
    assert ReplaceAll(q, id, calls) == ReplaceAll(q1, id, calls[1..]);
    CountIdPositive(q, id);
    CountIdAppend(q, first, id);
    var last := Refreshed(id, calls[|calls| - 1], c.now);
    if |calls| > 1 {
      ReplaceAllInPlace(q1, id, calls[1..], |q|);
      assert calls[1..][|calls[1..]| - 1] == calls[|calls| - 1];
      assert q1[|q| := last] == q + [last];
    }
    CountIdAppend(q, last, id);
  }

  // ---------------------------------------------------------------------------
  // Order used by getNextQueueItem
  // ---------------------------------------------------------------------------

  /**
   * The sort comparator of `getNextQueueItem`, read as "a may come before b":
   * smaller priority first, then earlier entry time.
   */
  predicate Precedes(a: Item, b: Item) {
    a.priority < b.priority || (a.priority == b.priority && a.entrytime <= b.entrytime)
  }

  predicate Sorted(q: seq<Item>) {
    forall i, j :: 0 <= i < j < |q| ==> Precedes(q[i], q[j])
  }

  /** A sorted sequence with `a` in front of it stays sorted when `a` precedes its first entry. */
  lemma SortedCons(a: Item, s: seq<Item>)
    requires Sorted(s) && (s == [] || Precedes(a, s[0]))
    ensures Sorted([a] + s)
  {
    forall i, j | 0 <= i < j < |[a] + s|
      ensures Precedes(([a] + s)[i], ([a] + s)[j])
    {
      if i == 0 && j > 1 {
        assert Precedes(s[0], s[j - 1]);
      }
    }
  }

  /** The tail of a sorted sequence is sorted. */
  lemma SortedTail(s: seq<Item>)
    requires Sorted(s) && s != []
    ensures Sorted(s[1..])
  {
    forall i, j | 0 <= i < j < |s[1..]|
      ensures Precedes(s[1..][i], s[1..][j])
    {
      assert Precedes(s[i + 1], s[j + 1]);
    }
  }

  /** The step of `Insert` that keeps the head of `s` in front. */
  lemma InsertBehindHead(x: Item, s: seq<Item>, rest: seq<Item>)
    requires Sorted(s) && s != [] && !Precedes(x, s[0])
    requires Sorted(rest) && multiset(rest) == multiset(s[1..]) + multiset{x}
    requires rest != [] && (rest[0] == x || (|s| > 1 && rest[0] == s[1]))
    ensures Sorted([s[0]] + rest)
    ensures multiset([s[0]] + rest) == multiset(s) + multiset{x}
  {
    assert Precedes(s[0], rest[0]) by {
      if rest[0] != x { assert Precedes(s[0], s[1]); }
    }
    SortedCons(s[0], rest);
    assert s == [s[0]] + s[1..];
  }

  /** Insert `x` ahead of every entry it precedes (so before equal keys). */
  function Insert(x: Item, s: seq<Item>): (r: seq<Item>)
    requires Sorted(s)
    ensures Sorted(r)
    ensures multiset(r) == multiset(s) + multiset{x}
    ensures |r| == |s| + 1
    ensures r[0] == x || (s != [] && r[0] == s[0])
  {
    if s == [] || Precedes(x, s[0]) then
      SortedCons(x, s);
      [x] + s
    else
      SortedTail(s);
      var rest := Insert(x, s[1..]);
      InsertBehindHead(x, s, rest);
      [s[0]] + rest
  }

  /** The in-place `sort` of `getNextQueueItem`, as an insertion sort. */
  function SortByKey(q: seq<Item>): (r: seq<Item>)
    ensures Sorted(r)
    ensures multiset(r) == multiset(q)
    ensures |r| == |q|
  {
    if q == [] then []
    else
      assert q == [q[0]] + q[1..];
      Insert(q[0], SortByKey(q[1..]))
  }

  /** What `getNextQueueItem` returns, and the queue it leaves behind. */
  datatype Popped = Popped(item: Option<Item>, rest: seq<Item>)

  /**
   * `getNextQueueItem`: sort by (priority, entry time), then shift the head.
   * On an empty queue nothing is returned and the queue stays empty.
   */
  function PopNext(q: seq<Item>): (r: Popped)
    ensures r.item.None? <==> q == []
    ensures r.item.None? ==> r.rest == []
    ensures r.item.Some? ==> r.item.value in q
    ensures r.item.Some? ==> forall i :: 0 <= i < |q| ==> Precedes(r.item.value, q[i])
    ensures r.item.Some? ==> multiset(q) == multiset(r.rest) + multiset{r.item.value}
    ensures |r.rest| == if q == [] then 0 else |q| - 1
    ensures Sorted(r.rest)
  {
    var s := SortByKey(q);
    if |s| > 0 then
      SortedHeadPrecedes(s, q);
      assert s == [s[0]] + s[1..];
      assert s[0] in multiset(q);
      Popped(Some(s[0]), s[1..])
    else
      Popped(None, s)
  }

  /** The head of a sorted rearrangement of `q` precedes every entry of `q`. */
  lemma SortedHeadPrecedes(s: seq<Item>, q: seq<Item>)
    requires Sorted(s) && multiset(s) == multiset(q) && s != []
    ensures forall i :: 0 <= i < |q| ==> Precedes(s[0], q[i])
  {
    forall i | 0 <= i < |q|
      ensures Precedes(s[0], q[i])
    {
      assert q[i] in multiset(s);
      var k :| 0 <= k < |s| && s[k] == q[i];
      assert k == 0 || Precedes(s[0], s[k]);
    }
  }

  /**
   * With no admission in between, two successive pops come out in
   * (priority, entry time) order; in particular equal-priority items come
   * out in non-decreasing entry-time order.
   */
  lemma SuccessivePopsOrdered(q: seq<Item>)
    requires |q| >= 2
    ensures
      var first := PopNext(q);
      var second := PopNext(first.rest);
      first.item.Some? && second.item.Some? &&
      Precedes(first.item.value, second.item.value) &&
      (first.item.value.priority == second.item.value.priority ==>
         first.item.value.entrytime <= second.item.value.entrytime)
  {
    var first := PopNext(q);
    var second := PopNext(first.rest);
    assert second.item.value in multiset(first.rest);
    assert second.item.value in multiset(q);
  }
}
