/** The task queue of server/src/queue.test.ts: an insertion-ordered map from id
    to queue item, a create endpoint, a lookup endpoint, and a worker tick that
    completes the first pending item and broadcasts its result to every open
    WebSocket client. */
module TaskQueue {
  import opened Seqs

  datatype Status = Pending | Completed

  datatype QueueItem = QueueItem(id: string, status: Status, result: Option<string>, timestamp: int)

  /** The JSON body `{ id, status }` of `POST /api/queue-request`. */
  datatype CreateResponse = CreateResponse(id: string, status: Status)

  /** An error response: HTTP status code and the `error` field of the body. */
  datatype HttpError = HttpError(code: int, error: string)

  /** A connected WebSocket client; `open` is `readyState === WebSocket.OPEN`. */
  datatype Client = Client(id: nat, open: bool)

  /** `{ type: 'result', data: { id, text } }`. */
  datatype ResultMessage = ResultMessage(kind: string, id: string, text: string)

  /** One `client.send` of a message. */
  datatype Delivery = Delivery(client: nat, message: ResultMessage)

  const WorkerResult: string := "Test result"

  const NotFound: HttpError := HttpError(404, "Item not found")

  predicate IsPending(x: QueueItem) { x.status == Pending }

  /** The keys of the map, in insertion order. */
  function Ids(s: seq<QueueItem>): (r: seq<string>)
    ensures |r| == |s|
    ensures forall i :: 0 <= i < |s| ==> r[i] == s[i].id
  {
    if s == [] then [] else [s[0].id] + Ids(s[1..])
  }

  /** Every entry is stored under its own id, once. */
  predicate UniqueIds(s: seq<QueueItem>)
  {
    forall i, j :: 0 <= i < j < |s| ==> s[i].id != s[j].id
  }

  /** `queue.get(id)`. */
  function Lookup(s: seq<QueueItem>, id: string): (r: Option<QueueItem>)
    ensures r.Some? ==> r.value in s && r.value.id == id
    ensures r.None? <==> id !in Ids(s)
  {
    if s == [] then None
    else if s[0].id == id then Some(s[0])
    else Lookup(s[1..], id)
  }

  /** `queue.set(item.id, item)` on the entries. */
  function Set(s: seq<QueueItem>, item: QueueItem): seq<QueueItem>
  {
    if s == [] then [item]
    else if s[0].id == item.id then [item] + s[1..]
    else [s[0]] + Set(s[1..], item)
  }

  /** `Map.set` of an existing key keeps the keys and their order. */
  lemma {:induction false} SetKeepsIds(s: seq<QueueItem>, item: QueueItem)
    requires item.id in Ids(s)
    ensures Ids(Set(s, item)) == Ids(s)
  {
    assert Ids(s) == [s[0].id] + Ids(s[1..]);
    if s[0].id == item.id {
      assert Ids([item] + s[1..]) == [item.id] + Ids(s[1..]);
    } else {
      SetKeepsIds(s[1..], item);
      assert Ids([s[0]] + Set(s[1..], item)) == [s[0].id] + Ids(Set(s[1..], item));
    }
  }

  /** `Map.set` of a new key appends the entry. */
  lemma {:induction false} SetAppends(s: seq<QueueItem>, item: QueueItem)
    requires item.id !in Ids(s)
    ensures Set(s, item) == s + [item]
  {
    if s != [] {
      assert Ids(s) == [s[0].id] + Ids(s[1..]);
      SetAppends(s[1..], item);
      assert [s[0]] + (s[1..] + [item]) == s + [item];
    }
  }

  /** `get` of the key just set gives the new value. */
  lemma {:induction false} SetThenLookup(s: seq<QueueItem>, item: QueueItem)
    ensures Lookup(Set(s, item), item.id) == Some(item)
  {
    if s != [] && s[0].id != item.id {
      SetThenLookup(s[1..], item);
      assert ([s[0]] + Set(s[1..], item))[1..] == Set(s[1..], item);
    }
  }

  /** `Map.set` changes no entry stored under another key. */
  lemma {:induction false} SetKeepsOthers(s: seq<QueueItem>, item: QueueItem)
    ensures |Set(s, item)| >= |s|
    ensures forall i :: 0 <= i < |s| && s[i].id != item.id ==> Set(s, item)[i] == s[i]
  {
    if s != [] && s[0].id != item.id {
      SetKeepsOthers(s[1..], item);
      var t := Set(s[1..], item);
      assert forall i :: 1 <= i < |s| ==> s[i] == s[1..][i - 1] && ([s[0]] + t)[i] == t[i - 1];
    }
  }

  lemma {:induction false} SetKeepsUnique(s: seq<QueueItem>, item: QueueItem)
    requires UniqueIds(s)
    ensures UniqueIds(Set(s, item))
  {
    var r := Set(s, item);
    if item.id in Ids(s) {
      SetKeepsIds(s, item);
      assert forall i :: 0 <= i < |r| ==> r[i].id == Ids(r)[i] == Ids(s)[i] == s[i].id;
    } else {
      SetAppends(s, item);
      assert forall i :: 0 <= i < |s| ==> s[i].id != item.id by {
        forall i | 0 <= i < |s| ensures s[i].id != item.id {
          assert Ids(s)[i] == s[i].id;
        }
      }
    }
  }

  /** In a map with unique keys, `get` of a key other than the one set is unchanged. */
  lemma {:induction false} LookupAfterSet(s: seq<QueueItem>, item: QueueItem, id: string)
    requires id != item.id
    ensures Lookup(Set(s, item), id) == Lookup(s, id)
  {
    if s != [] && s[0].id != item.id {
      LookupAfterSet(s[1..], item, id);
      assert ([s[0]] + Set(s[1..], item))[1..] == Set(s[1..], item);
    } else if s != [] {
      assert ([item] + s[1..])[1..] == s[1..];
    }
  }

  /** The pending items in insertion order: `Array.from(queue.entries()).filter(pending)`. */
  function PendingItems(s: seq<QueueItem>): seq<QueueItem>
  {
    Filter(s, IsPending)
  }

  /** What the worker does to the item it picks. */
  function Complete(x: QueueItem): QueueItem
  {
    x.(status := Completed, result := Some(WorkerResult))
  }

  /** The map after one worker tick. */
  function AfterTick(s: seq<QueueItem>): seq<QueueItem>
  {
    var p := PendingItems(s);
    if p == [] then s else Set(s, Complete(p[0]))
  }

  /** The id a worker tick reports, if any. */
  function Reported(s: seq<QueueItem>): Option<string>
  {
    var p := PendingItems(s);
    if p == [] then None else Some(p[0].id)
  }

  /** The clients whose socket is open, in client order. */
  function OpenClients(clients: seq<Client>): seq<Client>
  {
    Filter(clients, (c: Client) => c.open)
  }

  /** `wss.clients.forEach(...)`: one delivery per open client, in client order. */
  function Broadcast(clients: seq<Client>, m: ResultMessage): (r: seq<Delivery>)
    ensures |r| <= |clients|
    ensures forall k :: 0 <= k < |r| ==> r[k].message == m && Client(r[k].client, true) in clients
    ensures forall k :: 0 <= k < |clients| && clients[k].open ==> Delivery(clients[k].id, m) in r
  {
    if clients == [] then []
    else
      var last := clients[|clients| - 1];
      Broadcast(clients[..|clients| - 1], m) + (if last.open then [Delivery(last.id, m)] else [])
  }

  /** A broadcast sends exactly one delivery per open client, in client order,
      so no client receives the message twice. */
  lemma {:induction false} BroadcastOpen(clients: seq<Client>, m: ResultMessage)
    ensures |Broadcast(clients, m)| == |OpenClients(clients)|
    ensures forall k :: 0 <= k < |Broadcast(clients, m)| ==>
      Broadcast(clients, m)[k] == Delivery(OpenClients(clients)[k].id, m)
  {
    if clients != [] {
      var init := clients[..|clients| - 1];
      var last := clients[|clients| - 1];
      assert clients == init + [last];
      BroadcastOpen(init, m);
      FilterAppend(init, [last], (c: Client) => c.open);
    }
  }

  /** The head of the pending list is the first pending item in insertion order;
      `i` is its index. */
  lemma {:induction false} FilterHead(s: seq<QueueItem>) returns (i: nat)
    requires PendingItems(s) != []
    ensures i < |s| && s[i] == PendingItems(s)[0] && IsPending(s[i])
    ensures forall k :: 0 <= k < i ==> !IsPending(s[k])
  {
    if IsPending(s[0]) {
      i := 0;
    } else {
      assert PendingItems(s) == PendingItems(s[1..]);
      var j := FilterHead(s[1..]);
      i := j + 1;
      forall k | 0 <= k < i
        ensures !IsPending(s[k])
      {
        if k > 0 {
          assert s[k] == s[1..][k - 1];
        }
      }
    }
  }

  /** A tick with no pending item changes nothing and reports nothing. */
  lemma IdleTick(s: seq<QueueItem>)
    requires forall i :: 0 <= i < |s| ==> !IsPending(s[i])
    ensures AfterTick(s) == s && Reported(s) == None
  {
  }

  /** A tick with pending items completes exactly the first pending item in
      insertion order, with the worker's result, and changes no other item. */
  lemma TickCompletesFirstPending(s: seq<QueueItem>)
    requires UniqueIds(s)
    requires PendingItems(s) != []
    ensures Reported(s).Some?
    ensures Ids(AfterTick(s)) == Ids(s)
    ensures forall j :: 0 <= j < |s| ==>
              AfterTick(s)[j] == (if s[j].id == Reported(s).value then Complete(s[j]) else s[j])
    ensures forall j :: 0 <= j < |s| && s[j].id == Reported(s).value ==>
              IsPending(s[j]) && forall k :: 0 <= k < j ==> !IsPending(s[k])
  {
    var i := FilterHead(s);
    var c := Complete(s[i]);
    assert AfterTick(s) == Set(s, c) && Reported(s) == Some(c.id);
    assert c.id in Ids(s) by {
      assert Ids(s)[i] == c.id;
    }
    SetKeepsIds(s, c);
    SetKeepsOthers(s, c);
    SetLookupIndex(s, c, i);
    TickPicksIndex(s, c.id, i);
  }

  /** Under unique keys, the only index holding key `s[i].id` is `i`. */
  lemma TickPicksIndex(s: seq<QueueItem>, id: string, i: int)
    requires UniqueIds(s) && 0 <= i < |s| && s[i].id == id
    ensures forall j :: 0 <= j < |s| && s[j].id == id ==> j == i
  {
  }

  /** With unique keys, the value set under the key at index `i` lands at index `i`. */
  lemma {:induction false} SetLookupIndex(s: seq<QueueItem>, item: QueueItem, i: int)
    requires UniqueIds(s) && 0 <= i < |s| && s[i].id == item.id
    ensures |Set(s, item)| == |s| && Set(s, item)[i] == item
  {
    if s[0].id != item.id {
      assert i != 0;
      SetLookupIndex(s[1..], item, i - 1);
    }
  }

  /** A completed item is still completed after a tick. */
  lemma CompletedStaysCompleted(s: seq<QueueItem>, j: int)
    requires UniqueIds(s)
    requires 0 <= j < |s| && s[j].status == Completed
    ensures |AfterTick(s)| == |s| && AfterTick(s)[j].status == Completed
  {
    if PendingItems(s) != [] {
      TickCompletesFirstPending(s);
    }
  }

  /** A tick with pending items removes exactly the head of the pending list. */
  lemma {:induction false} TickDropsHead(s: seq<QueueItem>)
    requires UniqueIds(s)
    requires PendingItems(s) != []
    ensures PendingItems(AfterTick(s)) == PendingItems(s)[1..]
    ensures Reported(s) == Some(PendingItems(s)[0].id)
  {
    var x := PendingItems(s)[0];
    var c := Complete(x);
    if IsPending(s[0]) {
      assert x == s[0];
      assert Set(s, c) == [c] + s[1..];
      assert ([c] + s[1..])[1..] == s[1..];
      assert PendingItems(s) == [s[0]] + PendingItems(s[1..]);
    } else {
      assert PendingItems(s) == PendingItems(s[1..]);
      assert x in s[1..];
      assert s[0].id != c.id by {
        var k :| 0 <= k < |s[1..]| && s[1..][k] == x;
        assert s[k + 1] == x;
      }
      TickDropsHead(s[1..]);
      var rest := Set(s[1..], c);
      assert Set(s, c) == [s[0]] + rest;
      assert ([s[0]] + rest)[1..] == rest;
    }
  }

  /** The pending count drops by exactly one on every tick that finds a pending item. */
  lemma PendingCountDrops(s: seq<QueueItem>)
    requires UniqueIds(s)
    requires PendingItems(s) != []
    ensures |PendingItems(AfterTick(s))| == |PendingItems(s)| - 1
  {
    TickDropsHead(s);
  }

  /** The ids reported by `n` successive ticks. */
  function Drain(s: seq<QueueItem>, n: nat): seq<string>
    decreases n
  {
    if n == 0 then []
    else match Reported(s)
      case None => []
      case Some(id) => [id] + Drain(AfterTick(s), n - 1)
  }

  /** Successive ticks report the pending items in insertion order, one per tick. */
  lemma {:induction false} DrainReportsPendingInOrder(s: seq<QueueItem>, n: nat)
    requires UniqueIds(s) && n <= |PendingItems(s)|
    ensures Drain(s, n) == Ids(PendingItems(s))[..n]
    decreases n
  {
    if n > 0 {
      var p := PendingItems(s);
      var s' := AfterTick(s);
      var rest := Ids(p[1..])[..n - 1];
      assert Drain(s', n - 1) == rest by {
        DrainStep(s, n);
        DrainReportsPendingInOrder(s', n - 1);
      }
      assert Drain(s, n) == [p[0].id] + rest by {
        DrainStep(s, n);
      }
      IdsHead(p, n);
    }
  }

  /** One tick of a drain: the head of the pending list is reported, the rest is
      left pending, and the map keeps unique ids. */
  lemma DrainStep(s: seq<QueueItem>, n: nat)
    requires UniqueIds(s) && 0 < n <= |PendingItems(s)|
    ensures Drain(s, n) == [PendingItems(s)[0].id] + Drain(AfterTick(s), n - 1)
    ensures PendingItems(AfterTick(s)) == PendingItems(s)[1..]
    ensures UniqueIds(AfterTick(s))
  {
    TickDropsHead(s);
    SetKeepsUnique(s, Complete(PendingItems(s)[0]));
  }

  lemma IdsHead(p: seq<QueueItem>, n: nat)
    requires 0 < n <= |p|
    ensures Ids(p)[..n] == [p[0].id] + Ids(p[1..])[..n - 1]
  {
    assert Ids(p) == [p[0].id] + Ids(p[1..]);
  }

  /** As many ticks as there are pending items report every pending id, and no id twice. */
  lemma DrainReportsEachOnce(s: seq<QueueItem>)
    requires UniqueIds(s)
    ensures Drain(s, |PendingItems(s)|) == Ids(PendingItems(s))
    ensures Distinct(Drain(s, |PendingItems(s)|))
  {
    DrainReportsPendingInOrder(s, |PendingItems(s)|);
    assert Ids(PendingItems(s))[..|PendingItems(s)|] == Ids(PendingItems(s));
    FilterIsSubsequence(s, IsPending);
    SubsequenceKeepsUnique(PendingItems(s), s);
  }

  lemma {:induction false} SubsequenceKeepsUnique(a: seq<QueueItem>, b: seq<QueueItem>)
    requires IsSubsequence(a, b) && UniqueIds(b)
    ensures Distinct(Ids(a))
    decreases |b|
  {
    if a != [] {
      if a[0] == b[0] && IsSubsequence(a[1..], b[1..]) {
        SubsequenceKeepsUnique(a[1..], b[1..]);
        SubsequenceMembers(a[1..], b[1..]);
        assert forall k :: 1 <= k < |a| ==> a[k] == a[1..][k - 1];
      } else {
        SubsequenceKeepsUnique(a, b[1..]);
      }
    }
  }

  function NewItem(id: string, now: int): QueueItem
  {
    QueueItem(id, Pending, None, now)
  }

  /** `POST /api/queue-request` once per id, with the given timestamps. */
  function CreateAll(s: seq<QueueItem>, ids: seq<string>, stamps: seq<int>): seq<QueueItem>
    requires |stamps| == |ids|
    decreases |ids|
  {
    if ids == [] then s else CreateAll(Set(s, NewItem(ids[0], stamps[0])), ids[1..], stamps[1..])
  }

  /** The items the creates add, in creation order. */
  function NewItems(ids: seq<string>, stamps: seq<int>): seq<QueueItem>
    requires |stamps| == |ids|
  {
    if ids == [] then [] else [NewItem(ids[0], stamps[0])] + NewItems(ids[1..], stamps[1..])
  }

  /** Every created item is pending, and their ids are the created ids. */
  lemma {:induction false} NewItemsPending(ids: seq<string>, stamps: seq<int>)
    requires |stamps| == |ids|
    ensures PendingItems(NewItems(ids, stamps)) == NewItems(ids, stamps)
    ensures Ids(NewItems(ids, stamps)) == ids
  {
    if ids != [] {
      NewItemsPending(ids[1..], stamps[1..]);
      var r := NewItems(ids, stamps);
      assert r[1..] == NewItems(ids[1..], stamps[1..]);
    }
  }

  /** No id of `ids` is already a key of `s`. */
  predicate Fresh(s: seq<QueueItem>, ids: seq<string>)
  {
    forall k, j :: 0 <= k < |ids| && 0 <= j < |s| ==> ids[k] != s[j].id
  }

  /** Creating fresh, distinct ids appends one item per id. */
  lemma {:induction false} CreateAllAppends(s: seq<QueueItem>, ids: seq<string>, stamps: seq<int>)
    requires |stamps| == |ids| && Distinct(ids) && Fresh(s, ids)
    ensures CreateAll(s, ids, stamps) == s + NewItems(ids, stamps)
    decreases |ids|
  {
    if ids != [] {
      var x := NewItem(ids[0], stamps[0]);
      var s' := s + [x];
      assert Set(s, x) == s' by {
        assert forall j :: 0 <= j < |s| ==> Ids(s)[j] != x.id;
        SetAppends(s, x);
      }
      assert Fresh(s', ids[1..]) by {
        forall k, j | 0 <= k < |ids[1..]| && 0 <= j < |s'| ensures ids[1..][k] != s'[j].id {
          assert ids[1..][k] == ids[k + 1];
          if j == |s| {
            assert s'[j].id == ids[0];
          }
        }
      }
      CreateAllAppends(s', ids[1..], stamps[1..]);
      var rest := NewItems(ids[1..], stamps[1..]);
      assert s' + rest == s + ([x] + rest);
    }
  }

  /** `n` items created on a queue with nothing pending are reported by the next
      `n` ticks in creation order, each exactly once. */
  lemma CreatedReportedOnce(s: seq<QueueItem>, ids: seq<string>, stamps: seq<int>)
    requires UniqueIds(s) && PendingItems(s) == []
    requires |stamps| == |ids| && Distinct(ids) && Fresh(s, ids)
    ensures Drain(CreateAll(s, ids, stamps), |ids|) == ids
    ensures forall k :: 0 <= k < |ids| ==> Count(Drain(CreateAll(s, ids, stamps), |ids|), ids[k]) == 1
  {
    CreateAllAppends(s, ids, stamps);
    var t := CreateAll(s, ids, stamps);
    CreateAllKeepsUnique(s, ids, stamps);
    FilterAppend(s, NewItems(ids, stamps), IsPending);
    NewItemsPending(ids, stamps);
    assert PendingItems(t) == NewItems(ids, stamps);
    DrainReportsPendingInOrder(t, |ids|);
    assert Ids(PendingItems(t))[..|ids|] == ids;
    forall k | 0 <= k < |ids| ensures Count(ids, ids[k]) == 1 {
      CountDistinct(ids, k);
    }
  }

  lemma {:induction false} CreateAllKeepsUnique(s: seq<QueueItem>, ids: seq<string>, stamps: seq<int>)
    requires UniqueIds(s) && |stamps| == |ids|
    ensures UniqueIds(CreateAll(s, ids, stamps))
    decreases |ids|
  {
    if ids != [] {
      SetKeepsUnique(s, NewItem(ids[0], stamps[0]));
      CreateAllKeepsUnique(Set(s, NewItem(ids[0], stamps[0])), ids[1..], stamps[1..]);
    }
  }

  /** An element of a duplicate-free sequence occurs exactly once. */
  lemma {:induction false} CountDistinct(xs: seq<string>, k: int)
    requires Distinct(xs) && 0 <= k < |xs|
    ensures Count(xs, xs[k]) == 1
  {
    var init := xs[..|xs| - 1];
    assert Distinct(init);
    if k == |xs| - 1 {
      assert xs[k] !in init;
    } else {
      CountDistinct(init, k);
      assert init[k] == xs[k];
    }
  }

  /** The queue: `Map<string, QueueItem>` with insertion order. */
  class Queue {
    var entries: seq<QueueItem>

    ghost predicate Valid()
      reads this
    {
      UniqueIds(entries)
    }

    constructor()
      ensures Valid() && entries == []
    {
      entries := [];
    }

    /** `POST /api/queue-request` with the id and timestamp the server generated. */
    method Create(id: string, now: int) returns (resp: CreateResponse)
      requires Valid()
      modifies this
      ensures Valid()
      ensures entries == Set(old(entries), NewItem(id, now))
      ensures resp == CreateResponse(id, Pending)
    {
      SetKeepsUnique(entries, NewItem(id, now));
      entries := Set(entries, NewItem(id, now));
      resp := CreateResponse(id, Pending);
    }

    /** `GET /api/queue-request/:id`. */
    function Get(id: string): (r: Result<QueueItem, HttpError>)
      reads this
      ensures r.Ok? <==> id in Ids(entries)
      ensures r.Ok? ==> r.value in entries && r.value.id == id
      ensures r.Err? ==> r.error == NotFound
    {
      match Lookup(entries, id)
      case Some(item) => Ok(item)
      case None => Err(NotFound)
    }

    /** One run of the `setInterval` worker: complete the first pending item and
        send its result to every open client. */
    method Tick(clients: seq<Client>) returns (sent: seq<Delivery>)
      requires Valid()
      modifies this
      ensures Valid()
      ensures entries == AfterTick(old(entries))
      ensures Reported(old(entries)).None? ==> sent == []
      ensures Reported(old(entries)).Some? ==>
                sent == Broadcast(clients, ResultMessage("result", Reported(old(entries)).value, WorkerResult))
    {
      var pendingItems := PendingItems(entries);
      sent := [];
      if |pendingItems| > 0 {
        var item := Complete(pendingItems[0]);
        SetKeepsUnique(entries, item);
        entries := Set(entries, item);
        sent := Send(clients, ResultMessage("result", item.id, item.result.value));
      }
    }
  }

  /** `wss.clients.forEach(client => { if open then client.send(message) })`. */
  method Send(clients: seq<Client>, message: ResultMessage) returns (sent: seq<Delivery>)
    ensures sent == Broadcast(clients, message)
  {
    sent := [];
    var i := 0;
    while i < |clients|
      invariant 0 <= i <= |clients|
      invariant sent == Broadcast(clients[..i], message)
    {
      if clients[i].open {
        sent := sent + [Delivery(clients[i].id, message)];
      }
      assert clients[..i + 1][..i] == clients[..i];
      i := i + 1;
    }
    assert clients[..|clients|] == clients;
  }

  /** Creating an item and reading it back gives that id, pending, with no result. */
  method CreateThenGet(id: string, now: int) returns (r: Result<QueueItem, HttpError>)
    ensures r == Ok(QueueItem(id, Pending, None, now))
  {
    var q := new Queue();
    var created := q.Create(id, now);
    r := q.Get(created.id);
  }

  /** Reading an id that was never created is a 404 with "Item not found". */
  method GetUnknown(created: string, now: int, unknown: string) returns (r: Result<QueueItem, HttpError>)
    requires unknown != created
    ensures r == Err(HttpError(404, "Item not found"))
  {
    var q := new Queue();
    var _ := q.Create(created, now);
    r := q.Get(unknown);
  }

  /** A created item is reported to an open client by the next tick, with the
      worker's non-empty result text. */
  method CreateThenTick(id: string, now: int, client: nat) returns (sent: seq<Delivery>)
    ensures sent == [Delivery(client, ResultMessage("result", id, WorkerResult))]
    ensures WorkerResult != ""
  {
    var q := new Queue();
    var _ := q.Create(id, now);
    assert PendingItems([NewItem(id, now)]) == [NewItem(id, now)];
    sent := q.Tick([Client(client, true)]);
    assert [Client(client, true)][..0] == [];
  }
}
