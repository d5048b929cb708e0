/**
 * The admission queue of the chat service (main.py, lines 24-106 and 121-125):
 * requests wait in a FIFO queue, at most `maxConcurrent` of them are in flight at
 * once, and each request in flight takes the next API key in round-robin order.
 *
 * Starting a request (`asyncio.create_task`) appends it to the ghost log
 * `started`; the end of its task, the `finally` block at lines 104-106, is the
 * explicit call `Complete(id)`.
 */
module Admission {
  import opened Strings

  /** One queued request: its id and its body. */
  datatype Item<D> = Item(id: string, data: D)

  /** The queue and the in-flight set after a drain, the number of items it popped, and the items it started. */
  datatype Drained<D> = Drained(queue: seq<Item<D>>, processing: set<string>, popped: nat, started: seq<Item<D>>)

  /** The answer of the status endpoint. */
  datatype Status = Processing | Completed

  /**
   * The items of a popped prefix that start, given the ids already in flight:
   * an item whose id is in flight, or started earlier in the prefix, is dropped.
   */
  function Admit<D>(items: seq<Item<D>>, inFlight: set<string>): (started: seq<Item<D>>)
    ensures |started| <= |items|
    ensures forall x :: x in started ==> x in items
    decreases |items|
  {
    if items == [] then []
    else if items[0].id in inFlight then Admit(items[1..], inFlight)
    else [items[0]] + Admit(items[1..], inFlight + {items[0].id})
  }

  /** The ids of some items. */
  function Ids<D>(items: seq<Item<D>>): set<string>
  {
    set i | 0 <= i < |items| :: items[i].id
  }

  /**
   * `process_queue` (lines 46-51) on the queue q with the ids p in flight: pop the
   * head while the queue is not empty and fewer than cap requests are in flight,
   * and start it unless its id is already in flight.
   */
  function Drain<D>(q: seq<Item<D>>, p: set<string>, cap: int): (d: Drained<D>)
    ensures |p| >= cap ==> d == Drained(q, p, 0, [])
    decreases |q|
  {
    if q == [] || |p| >= cap then Drained(q, p, 0, [])
    else
      var head := q[0];
      if head.id in p then
        var d := Drain(q[1..], p, cap);
        d.(popped := d.popped + 1)
      else
        var d := Drain(q[1..], p + {head.id}, cap);
        d.(popped := d.popped + 1, started := [head] + d.started)
  }

  /** The cursor after `current_key_index + 1`, wrapped around the n keys. */
  function Next(c: nat, n: nat): (r: nat)
    requires c < n
    ensures r < n
    ensures r == (c + 1) % n
  {
    if c + 1 == n then 0 else c + 1
  }

  /** The positions of the API keys that m consecutive calls of `get_next_api_key` read, from cursor c over n keys. */
  function Visits(c: nat, n: nat, m: nat): (r: seq<nat>)
    requires c < n
    ensures |r| == m
    ensures forall i :: 0 <= i < m ==> r[i] < n
    decreases m
  {
    if m == 0 then [] else [c] + Visits(Next(c, n), n, m - 1)
  }

  /**
   * The loop of `process_queue` (lines 47-51) on the queue q0 with the ids p0 in
   * flight; `begun` lists the requests it hands to `process_request`.
   */
  method DrainQueue<D>(q0: seq<Item<D>>, p0: set<string>, cap: int) returns (q: seq<Item<D>>, p: set<string>, ghost begun: seq<Item<D>>)
    requires |p0| <= cap || p0 == {}
    ensures var d := Drain(q0, p0, cap);
            q == d.queue && p == d.processing && begun == d.started
    ensures |p| <= cap || p == {}
    ensures q == [] || |p| >= cap
  {
    q, p, begun := q0, p0, [];
    ghost var d := Drain(q0, p0, cap);
    while q != [] && |p| < cap
      invariant Resumes(q, p, cap, d, begun)
      decreases |q|
    {
      var head := q[0];
      ResumesStep(q, p, cap, d, begun);
      q := q[1..];
      if head.id !in p {
        p := p + {head.id};
        begun := begun + [head];
      }
    }
    ResumesDone(q, p, cap, d, begun);
    DrainStops(q0, p0, cap);
  }

  /** Draining q with p in flight, after having started `begun`, ends in d. */
  ghost predicate Resumes<D>(q: seq<Item<D>>, p: set<string>, cap: int, d: Drained<D>, begun: seq<Item<D>>)
  {
    var e := Drain(q, p, cap);
    e.queue == d.queue && e.processing == d.processing && d.started == begun + e.started
  }

  /** One turn of the loop keeps the drain on course for d. */
  lemma ResumesStep<D>(q: seq<Item<D>>, p: set<string>, cap: int, d: Drained<D>, begun: seq<Item<D>>)
    requires q != [] && |p| < cap && Resumes(q, p, cap, d, begun)
    ensures var head := q[0];
            var p' := if head.id in p then p else p + {head.id};
            && Resumes(q[1..], p', cap, d, if head.id in p then begun else begun + [head])
            && |p'| <= cap
  {
    var head := q[0];
    var p' := if head.id in p then p else p + {head.id};
    DrainStep(q, p, cap);
    if head.id !in p {
      var rest := Drain(q[1..], p', cap).started;
      assert begun + ([head] + rest) == (begun + [head]) + rest;
    }
  }

  /** When the loop stops, the drain has nothing left to do. */
  lemma ResumesDone<D>(q: seq<Item<D>>, p: set<string>, cap: int, d: Drained<D>, begun: seq<Item<D>>)
    requires (q == [] || |p| >= cap) && Resumes(q, p, cap, d, begun)
    ensures q == d.queue && p == d.processing && begun == d.started
  {
    assert Drain(q, p, cap) == Drained(q, p, 0, []);
  }

  /** `RequestQueue`: the waiting requests, the ids in flight and the key rotation. */
  class RequestQueue<D> {
    /** `queue`: the waiting requests, oldest first. */
    var queue: seq<Item<D>>
    /** `processing`: the ids of the requests in flight. */
    var processing: set<string>
    /** `max_concurrent`. */
    const maxConcurrent: int
    /** `api_keys`. */
    const apiKeys: seq<string>
    /** `current_key_index`. */
    var cursor: nat
    /** Every request handed to `process_request`, in the order they started. */
    ghost var started: seq<Item<D>>

    /** At most `maxConcurrent` requests are in flight, and the cursor points at a key. */
    ghost predicate Valid()
      reads this
    {
      && (|processing| <= maxConcurrent || processing == {})
      && (apiKeys == [] || cursor < |apiKeys|)
    }

    /** `RequestQueue(max_concurrent)`, with the keys read from the comma-separated `DEEPSEEK_API_KEYS`. */
    constructor (maxConcurrent: int, keysVariable: string)
      ensures Valid()
      ensures queue == [] && processing == {} && started == [] && cursor == 0
      ensures this.maxConcurrent == maxConcurrent && apiKeys == Split(keysVariable, ',')
      ensures |apiKeys| >= 1
    {
      queue := [];
      processing := {};
      this.maxConcurrent := maxConcurrent;
      apiKeys := Split(keysVariable, ',');
      cursor := 0;
      started := [];
    }

    /** `get_next_api_key` (lines 35-40): the key at the cursor, and the cursor moves on; None where it raises. */
    method GetNextApiKey() returns (key: Option<string>)
      requires Valid()
      modifies this
      ensures Valid()
      ensures apiKeys == [] ==> key.None? && cursor == old(cursor)
      ensures apiKeys != [] ==> key == Some(apiKeys[old(cursor)]) && cursor == (old(cursor) + 1) % |apiKeys|
      ensures apiKeys != [] ==> cursor == Next(old(cursor), |apiKeys|)
      ensures queue == old(queue) && processing == old(processing) && started == old(started)
    {
      if apiKeys == [] {
        return None;
      }
      key := Some(apiKeys[cursor]);
      cursor := (cursor + 1) % |apiKeys|;
    }

    /** `add_request` (lines 42-44): enqueue at the tail, then drain. */
    method AddRequest(id: string, data: D)
      requires Valid()
      modifies this
      ensures Valid()
      ensures var d := Drain(old(queue) + [Item(id, data)], old(processing), maxConcurrent);
              queue == d.queue && processing == d.processing && started == old(started) + d.started
      ensures cursor == old(cursor)
    {
      queue := queue + [Item(id, data)];
      ProcessQueue();
    }

    /** `process_queue` (lines 46-51). */
    method ProcessQueue()
      requires Valid()
      modifies this
      ensures Valid()
      ensures var d := Drain(old(queue), old(processing), maxConcurrent);
              queue == d.queue && processing == d.processing && started == old(started) + d.started
      ensures cursor == old(cursor)
    {
      ghost var begun;
      queue, processing, begun := DrainQueue(queue, processing, maxConcurrent);
      started := started + begun;
    }

    /** The `finally` block of `process_request` (lines 104-106): the request leaves the in-flight set, then drain. */
    method Complete(id: string)
      requires Valid() && id in processing
      modifies this
      ensures Valid()
      ensures var d := Drain(old(queue), old(processing) - {id}, maxConcurrent);
              queue == d.queue && processing == d.processing && started == old(started) + d.started
      ensures cursor == old(cursor)
    {
      processing := processing - {id};
      ProcessQueue();
    }

    /** `get_status` (lines 121-125). */
    function GetStatus(id: string): (s: Status)
      reads this
      ensures s == Processing <==> id in processing
      ensures s == Completed <==> id !in processing
    {
      if id in processing then Processing else Completed
    }
  }

  // ---------------------------------------------------------------------------
  // Properties

  /**
   * A drain pops a prefix of the queue, in order: the rest stays queued, the items
   * of the prefix whose id was not in flight start in queue order, and their ids
   * join the in-flight set.
   */
  lemma DrainIsFifo<D>(q: seq<Item<D>>, p: set<string>, cap: int)
    ensures var d := Drain(q, p, cap);
            && d.popped <= |q|
            && d.queue == q[d.popped..]
            && d.started == Admit(q[..d.popped], p)
            && d.processing == p + Ids(d.started)
            && Ids(d.started) == Ids(q[..d.popped]) - p
  {
    DrainPopsPrefix(q, p, cap);
    DrainTakesIds(q, p, cap);
    var d := Drain(q, p, cap);
    AdmitComplete(q[..d.popped], p);
  }

  /** A drain pops a prefix of the queue and starts the admitted items of that prefix. */
  lemma {:induction false} DrainPopsPrefix<D>(q: seq<Item<D>>, p: set<string>, cap: int)
    ensures var d := Drain(q, p, cap);
            && d.popped <= |q|
            && d.queue == q[d.popped..]
            && d.started == Admit(q[..d.popped], p)
    decreases |q|
  {
    var d := Drain(q, p, cap);
    if q == [] || |p| >= cap {
      assert q[..0] == [];
    } else {
      var head := q[0];
      var p' := if head.id in p then p else p + {head.id};
      DrainPopsPrefix(q[1..], p', cap);
      var d' := Drain(q[1..], p', cap);
      assert q[1..][d'.popped..] == q[d.popped..];
      assert q[..d.popped] == [head] + q[1..][..d'.popped];
    }
  }

  /** The ids a drain adds to the in-flight set are those of the items it starts. */
  lemma {:induction false} DrainTakesIds<D>(q: seq<Item<D>>, p: set<string>, cap: int)
    ensures Drain(q, p, cap).processing == p + Ids(Drain(q, p, cap).started)
    decreases |q|
  {
    if q != [] && |p| < cap {
      var head := q[0];
      var p' := if head.id in p then p else p + {head.id};
      DrainTakesIds(q[1..], p', cap);
      if head.id !in p {
        IdsCons(head, Drain(q[1..], p', cap).started);
      }
    }
  }

  lemma IdsCons<D>(head: Item<D>, rest: seq<Item<D>>)
    ensures Ids([head] + rest) == {head.id} + Ids(rest)
  {
    var s := [head] + rest;
    forall x | x in Ids(s) ensures x in {head.id} + Ids(rest) {
      var i :| 0 <= i < |s| && s[i].id == x;
      if i > 0 {
        assert rest[i - 1].id == x;
      }
    }
    forall x | x in Ids(rest) ensures x in Ids(s) {
      var i :| 0 <= i < |rest| && rest[i].id == x;
      assert s[i + 1].id == x;
    }
    assert s[0].id == head.id;
  }

  /** A started request's id was not in flight, and no two started requests share an id. */
  lemma {:induction false} AdmitFresh<D>(items: seq<Item<D>>, p: set<string>)
    ensures forall i :: 0 <= i < |Admit(items, p)| ==> Admit(items, p)[i].id !in p
    ensures forall i, j :: 0 <= i < j < |Admit(items, p)| ==> Admit(items, p)[i].id != Admit(items, p)[j].id
    decreases |items|
  {
    if items != [] {
      var head := items[0];
      if head.id in p {
        AdmitFresh(items[1..], p);
      } else {
        var p' := p + {head.id};
        AdmitFresh(items[1..], p');
        var a := Admit(items, p);
        assert a == [head] + Admit(items[1..], p');
        forall i | 0 <= i < |a| ensures a[i].id !in p {
          if i > 0 {
            assert a[i] == Admit(items[1..], p')[i - 1];
          }
        }
        forall i, j | 0 <= i < j < |a| ensures a[i].id != a[j].id {
          assert a[j] == Admit(items[1..], p')[j - 1];
          if i > 0 {
            assert a[i] == Admit(items[1..], p')[i - 1];
          }
        }
      }
    }
  }

  /** Every id of the popped prefix that was not in flight is started: none is skipped. */
  lemma {:induction false} AdmitComplete<D>(items: seq<Item<D>>, p: set<string>)
    ensures Ids(Admit(items, p)) == Ids(items) - p
    decreases |items|
  {
    if items == [] {
      assert Ids(items) == {};
    } else {
      var head := items[0];
      assert items == [head] + items[1..];
      IdsCons(head, items[1..]);
      if head.id in p {
        AdmitComplete(items[1..], p);
      } else {
        var p' := p + {head.id};
        AdmitComplete(items[1..], p');
        IdsCons(head, Admit(items[1..], p'));
      }
    }
  }

  /**
   * A drain stops on an empty queue or a full in-flight set, never pushes the
   * in-flight set over the cap, and only adds to it.
   */
  lemma {:induction false} DrainStops<D>(q: seq<Item<D>>, p: set<string>, cap: int)
    ensures var d := Drain(q, p, cap);
            && (d.queue == [] || |d.processing| >= cap)
            && (|p| <= cap ==> |d.processing| <= cap)
            && p <= d.processing
    decreases |q|
  {
    if q != [] && |p| < cap {
      var head := q[0];
      var p' := if head.id in p then p else p + {head.id};
      DrainStops(q[1..], p', cap);
    }
  }

  /** One turn of the loop of `process_queue`: pop the head, and start it unless its id is in flight. */
  lemma DrainStep<D>(q: seq<Item<D>>, p: set<string>, cap: int)
    requires q != [] && |p| < cap
    ensures var head := q[0];
            var p' := if head.id in p then p else p + {head.id};
            var d, d' := Drain(q, p, cap), Drain(q[1..], p', cap);
            && d.queue == d'.queue && d.processing == d'.processing
            && d.started == (if head.id in p then [] else [head]) + d'.started
            && |p'| <= cap
  {
  }

  /** With a free slot and a head whose id is not in flight, the drain starts that head first. */
  lemma StartsTheHead<D>(q: seq<Item<D>>, p: set<string>, cap: int)
    requires q != [] && |p| < cap && q[0].id !in p
    ensures var d := Drain(q, p, cap);
            d.started != [] && d.started[0] == q[0] && q[0].id in d.processing
  {
    DrainStops(q[1..], p + {q[0].id}, cap);
  }

  /** A completion frees a slot: with the cap respected before, the drain that follows can start a request. */
  lemma CompletionFreesASlot(p: set<string>, id: string, cap: int)
    requires id in p && |p| <= cap
    ensures |p - {id}| < cap
  {
    assert p == (p - {id}) + {id};
  }

  /** The key read i calls after cursor c is the one i places further on, wrapping around once. */
  lemma {:induction false} VisitsAt(c: nat, n: nat, m: nat, i: nat)
    requires c < n && i < m && i < n
    ensures Visits(c, n, m)[i] == if c + i < n then c + i else c + i - n
    decreases m
  {
    if i > 0 {
      VisitsAt(Next(c, n), n, m - 1, i - 1);
    }
  }

  /** `len(api_keys)` consecutive calls read every key position exactly once, in list order from the cursor. */
  lemma RoundRobin(c: nat, n: nat)
    requires c < n
    ensures forall j :: 0 <= j < n ==> j in Visits(c, n, n)
    ensures forall i, i' :: 0 <= i < i' < n ==> Visits(c, n, n)[i] != Visits(c, n, n)[i']
  {
    var v := Visits(c, n, n);
    forall j | 0 <= j < n ensures j in v {
      var i := if j >= c then j - c else j + n - c;
      VisitsAt(c, n, n, i);
      assert v[i] == j;
    }
    forall i, i' | 0 <= i < i' < n ensures v[i] != v[i'] {
      VisitsAt(c, n, n, i);
      VisitsAt(c, n, n, i');
    }
  }
}
