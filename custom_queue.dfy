/** classes/custom-queue.cs: `UniqueQueue`, a FIFO of poll requests that refuses an item
    equal to one it already holds and remembers the fingerprint of every item it accepted. */
module CustomQueue {
  import opened Common
  import opened Structs
  import opened Utils

  /** `DequeueItem`: a request taken off the queue with the fingerprint recorded for it. */
  datatype DequeueItem = DequeueItem(item: StreamGrabRequest, hash: string)

  /** The `InvalidOperationException("Queue is empty.")` thrown by `Dequeue` and `Peek`. */
  datatype QueueError = QueueIsEmpty

  /** The elements of a sequence, as a set. */
  function Elements<T>(s: seq<T>): set<T>
  {
    set i | 0 <= i < |s| :: s[i]
  }

  lemma ElementsAppend<T>(s: seq<T>, x: T)
    ensures Elements(s + [x]) == Elements(s) + {x}
  {
    var t := s + [x];
    forall y | y in Elements(s) ensures y in Elements(t) {
      var k :| 0 <= k < |s| && s[k] == y;
      assert t[k] == y;
    }
    assert t[|s|] == x;
  }

  lemma ElementsTail<T>(s: seq<T>)
    requires s != [] && s[0] !in s[1..]
    ensures Elements(s[1..]) == Elements(s) - {s[0]}
  {
    var t := s[1..];
    forall y | y in Elements(s) && y != s[0] ensures y in Elements(t) {
      var k :| 0 <= k < |s| && s[k] == y;
      assert t[k - 1] == y;
    }
  }

  /** A sequence without repeats has as many distinct elements as it is long. */
  lemma {:induction false} DistinctElementsCount<T>(s: seq<T>)
    requires NoDuplicates(s)
    ensures |Elements(s)| == |s|
  {
    if s != [] {
      var rest := s[1..];
      assert NoDuplicates(rest) by {
        forall i, j | 0 <= i < j < |rest| ensures rest[i] != rest[j] {
          assert rest[i] == s[i + 1] && rest[j] == s[j + 1];
        }
      }
      DistinctElementsCount(rest);
      assert s[0] !in rest;
      assert Elements(s) == {s[0]} + Elements(rest);
    }
  }

  class UniqueQueue {
    /** `_queue`: the pending requests, oldest first. */
    var queue: seq<StreamGrabRequest>
    /** `_set`: the requests currently queued. */
    var members: set<StreamGrabRequest>
    /** `_hashes`: fingerprint per request; `Clear` leaves it as it is. */
    var hashes: map<StreamGrabRequest, string>

    /** The three containers are kept in step: the queue has no repeats, the set holds
        exactly the queued items, each of them has a recorded hash, and every recorded hash
        is the fingerprint of its request. */
    ghost predicate Valid()
      reads this
    {
      && NoDuplicates(queue)
      && members == Elements(queue)
      && members <= hashes.Keys
      && forall x :: x in hashes ==> hashes[x] == Fingerprint(x)
    }

    constructor ()
      ensures Valid()
      ensures queue == [] && members == {} && hashes == map[]
    {
      queue := [];
      members := {};
      hashes := map[];
    }

    /** `Count`: the number of queued requests, which is also the size of `_set`. */
    function Count(): (n: nat)
      reads this
      requires Valid()
      ensures n == |members|
    {
      DistinctElementsCount(queue);
      |queue|
    }

    /** `Enqueue`: a request equal to a queued one leaves everything as it was and returns the
        hash stored for it; any other request goes to the back with its new fingerprint. */
    method Enqueue(item: StreamGrabRequest) returns (hash: string)
      requires Valid()
      modifies this
      ensures Valid()
      ensures hash == Fingerprint(item)
      ensures old(item in members) ==>
                hash == old(hashes[item])
                && queue == old(queue) && members == old(members) && hashes == old(hashes)
      ensures old(item !in members) ==>
                queue == old(queue) + [item] && members == old(members) + {item}
                && hashes == old(hashes)[item := hash]
    {
      if item !in members {
        members := members + {item};
        hash := CreateHash(item);
        queue := queue + [item];
        hashes := hashes[item := hash];
        assert NoDuplicates(queue) by {
          assert item !in old(queue);
        }
        ElementsAppend(old(queue), item);
      } else {
        hash := hashes[item];
      }
    }

    /** `Dequeue`: an empty queue throws and changes nothing; otherwise the oldest request
        leaves the queue, the set and the hash table, and comes back with its recorded hash. */
    method Dequeue() returns (r: Result<DequeueItem, QueueError>)
      requires Valid()
      modifies this
      ensures Valid()
      ensures old(queue) == [] ==>
                r == Err(QueueIsEmpty)
                && queue == old(queue) && members == old(members) && hashes == old(hashes)
      ensures old(queue) != [] ==>
                var front := old(queue)[0];
                r == Ok(DequeueItem(front, old(hashes)[front]))
                && r.value.hash == Fingerprint(front)
                && queue == old(queue)[1..] && members == old(members) - {front}
                && hashes == old(hashes) - {front}
    {
      if |queue| == 0 {
        return Err(QueueIsEmpty);
      }
      var item := queue[0];
      queue := queue[1..];
      members := members - {item};
      var dequeued := DequeueItem(item, hashes[item]);
      hashes := hashes - {item};
      assert NoDuplicates(queue) by {
        forall i, j | 0 <= i < j < |queue| ensures queue[i] != queue[j] {
          assert queue[i] == old(queue)[i + 1] && queue[j] == old(queue)[j + 1];
        }
      }
      ElementsTail(old(queue));
      return Ok(dequeued);
    }

    /** `Peek`: the oldest request, without changing anything; an empty queue throws. */
    method Peek() returns (r: Result<StreamGrabRequest, QueueError>)
      ensures queue == [] ==> r == Err(QueueIsEmpty)
      ensures queue != [] ==> r == Ok(queue[0])
    {
      if |queue| == 0 {
        return Err(QueueIsEmpty);
      }
      return Ok(queue[0]);
    }

    /** `Contains(item)`: membership of the set, which is membership of the queue. */
    method Contains(item: StreamGrabRequest) returns (b: bool)
      requires Valid()
      ensures b <==> item in queue
    {
      b := item in members;
    }

    /** `Contains(func)`: whether some queued request satisfies the predicate. */
    method ContainsMatching(func: StreamGrabRequest -> bool) returns (b: bool)
      requires Valid()
      ensures b <==> exists i :: 0 <= i < |queue| && func(queue[i])
    {
      b := exists x :: x in members && func(x);
      if b {
        var x :| x in members && func(x);
        var i :| 0 <= i < |queue| && queue[i] == x;
      }
    }

    /** `GetHash`: the recorded hash, if any. A queued request always has one, and a
        recorded hash is always the fingerprint of its request, stale or not. */
    method GetHash(item: StreamGrabRequest) returns (h: Option<string>)
      requires Valid()
      ensures item in queue ==> h == Some(Fingerprint(item))
      ensures h.Some? ==> h.value == Fingerprint(item)
      ensures h.None? <==> item !in hashes
    {
      h := if item in hashes then Some(hashes[item]) else None;
    }

    /** `Clear`: empties the queue and the set but keeps `_hashes`. */
    method Clear()
      requires Valid()
      modifies this
      ensures Valid()
      ensures queue == [] && members == {} && hashes == old(hashes)
    {
      queue := [];
      members := {};
    }
  }

  /** After `Clear` the queue is empty and holds nothing, yet `GetHash` still answers for a
      request that was queued before, because `_hashes` was not cleared. */
  method StaleHashAfterClear(item: StreamGrabRequest) returns (count: nat, contained: bool, stale: Option<string>)
    ensures count == 0 && !contained
    ensures stale == Some(Fingerprint(item))
  {
    var q := new UniqueQueue();
    var _ := q.Enqueue(item);
    q.Clear();
    count := q.Count();
    contained := q.Contains(item);
    stale := q.GetHash(item);
  }

  /** Requests leave in arrival order; a request that was dequeued is accepted again, at the
      back, while enqueuing a request that is still queued changes nothing. */
  method FifoAndRequeue(a: StreamGrabRequest, b: StreamGrabRequest)
    returns (first: Result<DequeueItem, QueueError>, pending: seq<StreamGrabRequest>)
    requires a != b
    ensures first == Ok(DequeueItem(a, Fingerprint(a)))
    ensures pending == [b, a]
  {
    var q := new UniqueQueue();
    var _ := q.Enqueue(a);
    var _ := q.Enqueue(b);
    var _ := q.Enqueue(b);
    first := q.Dequeue();
    var _ := q.Enqueue(a);
    pending := q.queue;
  }
}
