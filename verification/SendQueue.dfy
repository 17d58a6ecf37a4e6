/** The bounded queue between evaluation and delivery: it drops whole batches, oldest first. */
module SendQueues {
  import opened AlertModel
  import opened Options
  import opened Machine

  /** One evaluation's alerts waiting for delivery. */
  datatype Item = Item(group: string, rule: string, now: Time, interval: Time, alerts: seq<Alert>, queuedAt: Time)

  function Total(items: seq<Item>): (n: nat)
    ensures items != [] ==> n >= |items[0].alerts|
  {
    if items == [] then 0 else |items[0].alerts| + Total(items[1..])
  }

  lemma {:induction false} TotalConcat(a: seq<Item>, b: seq<Item>)
    ensures Total(a + b) == Total(a) + Total(b)
  {
    if a == [] {
      assert a + b == b;
    } else {
      assert (a + b)[1..] == a[1..] + b;
      TotalConcat(a[1..], b);
    }
  }

  ghost function Sizes(items: seq<Item>): seq<nat> {
    seq(|items|, j requires 0 <= j < |items| => |items[j].alerts|)
  }

  /** The total is of alerts, one for every place in every batch. */
  lemma {:induction false} TotalExactly(items: seq<Item>)
    ensures Total(items) == |Places(Sizes(items))|
  {
    hide Places, Total;
    NoPlaces();
    if items == [] {
      assert Sizes(items) == [];
      TotalOfOne(items);
    } else {
      var n := |items| - 1;
      TotalExactly(items[..n]);
      PlacesMore(Sizes(items[..n]), |items[n].alerts|);
      assert Sizes(items) == Sizes(items[..n]) + [|items[n].alerts|];
      TotalSplit(items, n);
      TotalOfOne(items[n..]);
    }
  }

  lemma TotalOfOne(items: seq<Item>)
    requires |items| <= 1
    ensures Total(items) == if items == [] then 0 else |items[0].alerts|
  {
    assert items != [] ==> items[1..] == [];
  }

  lemma TotalSplit(items: seq<Item>, n: nat)
    requires n <= |items|
    ensures Total(items) == Total(items[..n]) + Total(items[n..])
  {
    assert items == items[..n] + items[n..];
    TotalConcat(items[..n], items[n..]);
  }

  /** How many of the oldest items make room for `size` more alerts. */
  function DropCount(items: seq<Item>, size: nat, capacity: nat): (n: nat)
    ensures n <= |items|
  {
    if items == [] || Total(items) + size <= capacity then 0 else 1 + DropCount(items[1..], size, capacity)
  }

  /** The least number of whole batches is dropped, and the room they leave is enough unless
      the new batch is larger than the queue. */
  lemma {:induction false} DropsTheLeast(items: seq<Item>, size: nat, capacity: nat)
    ensures var n := DropCount(items, size, capacity);
            && (n == |items| || Total(items[n..]) + size <= capacity)
            && forall k :: 0 <= k < n ==> Total(items[k..]) + size > capacity
  {
    hide Total;
    assert items[0..] == items;
    if items != [] && Total(items) + size > capacity {
      DropsTheLeast(items[1..], size, capacity);
      var n := DropCount(items, size, capacity);
      forall k | 0 <= k < n ensures Total(items[k..]) + size > capacity {
        if k > 0 {
          SuffixOfRest(items, k);
        }
      }
      SuffixOfRest(items, n);
    }
  }

  /** `queued` counts the alerts in the queue, and only a single oversized batch exceeds the bound. */
  ghost predicate Sound(items: seq<Item>, queued: int, capacity: nat) {
    && queued == Total(items)
    && (forall i :: 0 <= i < |items| ==> items[i].alerts != [])
    && (queued <= capacity || |items| == 1)
  }

  const DEFAULT_CAPACITY := 10000

  class SendQueue {
    const capacity: nat
    var items: seq<Item>
    var queued: int
    var closed: bool

    /** clickhouse_ruler_notifications_dropped_total and the queue length gauge. */
    var dropped: nat
    var length: int

    /** Every item handed to the cadence, in order. */
    ghost var handed: seq<Item>

    ghost predicate Valid()
      reads this
    {
      Sound(items, queued, capacity)
    }

    /** A capacity that is no bound is replaced by the default one. */
    constructor (capacity: int)
      ensures Valid() && items == [] && !closed && dropped == 0 && handed == []
      ensures this.capacity == if capacity > 0 then capacity else DEFAULT_CAPACITY
    {
      this.capacity := if capacity <= 0 then DEFAULT_CAPACITY else capacity;
      items, queued, closed, dropped, length, handed := [], 0, false, 0, 0, [];
    }

    /** Hands one evaluation's alerts over. Never blocks. */
    method Enqueue(item: Item)
      requires Valid()
      modifies `items, `queued, `dropped, `length
      ensures Valid()
      ensures item.alerts == [] ==> items == old(items) && dropped == old(dropped)
      ensures item.alerts != [] && closed ==> items == old(items) && dropped == old(dropped) + |item.alerts|
      ensures item.alerts != [] && !closed ==>
                var n := DropCount(old(items), |item.alerts|, capacity);
                && items == old(items)[n..] + [item]
                && dropped == old(dropped) + Total(old(items)[..n])
                && length == queued
    {
      if item.alerts == [] {
        return;
      }
      if closed {
        dropped := dropped + |item.alerts|;
        return;
      }
      var lost := MakeRoom(|item.alerts|);
      TotalConcat(items, [item]);
      items := items + [item];
      queued := queued + |item.alerts|;
      length := queued;
      dropped := dropped + lost;
    }

    /** Drops the oldest batches until `size` more alerts fit, or nothing is left. */
    method MakeRoom(size: nat) returns (lost: nat)
      requires Valid() && size > 0
      modifies `items, `queued
      ensures var n := DropCount(old(items), size, capacity);
              items == old(items)[n..] && lost == Total(old(items)[..n])
      ensures queued == Total(items)
      ensures items == [] || queued + size <= capacity
    {
      lost := 0;
      ghost var was := items;
      ghost var n := 0;
      while items != [] && queued + size > capacity
        invariant n <= |was| && items == was[n..]
        invariant queued == Total(items)
        invariant lost == Total(was[..n])
        invariant n + DropCount(items, size, capacity) == DropCount(was, size, capacity)
        decreases |items|
      {
        var oldest := items[0];
        assert was[..n + 1] == was[..n] + [oldest];
        TotalConcat(was[..n], [oldest]);
        items := items[1..];
        queued := queued - |oldest.alerts|;
        lost := lost + |oldest.alerts|;
        n := n + 1;
      }
    }

    /** Takes the oldest item out. */
    method Next() returns (item: Item, ok: bool)
      requires Valid()
      modifies `items, `queued, `length
      ensures Valid()
      ensures ok <==> old(items) != []
      ensures ok ==> item == old(items)[0] && items == old(items)[1..] && length == queued
      ensures !ok ==> items == old(items)
    {
      if items == [] {
        return Item("", "", 0, 0, [], 0), false;
      }
      item := items[0];
      items := items[1..];
      queued := queued - |item.alerts|;
      length := queued;
      return item, true;
    }

    /** Drops what is left. */
    method Abandon()
      requires Valid()
      modifies `items, `queued, `dropped, `length
      ensures Valid() && items == []
      ensures dropped == old(dropped) + Total(old(items))
    {
      var left := queued;
      items, queued := [], 0;
      if left == 0 {
        return;
      }
      dropped := dropped + left;
      length := 0;
    }

    /** Delivers on the calling goroutine until the queue is empty or the context is cancelled.
        `cancelledAt` is how many items are delivered before the cancel is seen. */
    method DrainLoop(cancelledAt: nat)
      requires Valid()
      modifies `items, `queued, `dropped, `length, `handed
      ensures Valid() && items == []
      ensures var n := if cancelledAt < |old(items)| then cancelledAt else |old(items)|;
              && handed == old(handed) + old(items)[..n]
              && dropped == old(dropped) + Total(old(items)[n..])
    {
      var sent := 0;
      while true
        invariant Valid() && sent <= cancelledAt && sent <= |old(items)|
        invariant items == old(items)[sent..]
        invariant handed == old(handed) + old(items)[..sent]
        invariant dropped == old(dropped)
        decreases |items|
      {
        if sent == cancelledAt {
          Abandon();
          return;
        }
        var item, ok := Next();
        if !ok {
          return;
        }
        handed := handed + [item];
        sent := sent + 1;
      }
    }
  }
}
