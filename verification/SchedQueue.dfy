// The message queue of a service, a circular buffer that grows, and the global list of queues that have
// work, an intrusive linked list. Both are proved to be plain sequences.
module SchedQueue {
  import opened Circular

  datatype Msg = Msg(source: int, session: int, kind: int, data: int)

  /** What the scheduler sees of a message queue. */
  datatype Queue = Queue(msgs: seq<Msg>, inGlobal: bool, release: bool)

  /** 'skynet_mq_push' */
  function Pushed(q: Queue, m: Msg): Queue {
    q.(msgs := q.msgs + [m], inGlobal := true)
  }

  /** 'skynet_mq_pop': taking from an empty queue marks it as unscheduled. */
  function Popped(q: Queue): Queue {
    if q.msgs == [] then q.(inGlobal := false) else q.(msgs := q.msgs[1..])
  }

  const DEFAULT_QUEUE_SIZE := 64
  const MQ_OVERLOAD := 1024

  /** The threshold, doubled until the length does not exceed it. */
  function Raised(threshold: nat, length: nat): (t: nat)
    requires threshold > 0
    ensures t >= threshold && t >= length && (length <= threshold ==> t == threshold)
    ensures t > threshold ==> t < 2 * length
    decreases length - threshold
  {
    if length > threshold then Raised(2 * threshold, length) else threshold
  }

  function Doubled(t: nat, times: nat): nat
    decreases times
  {
    if times == 0 then t else Doubled(2 * t, times - 1)
  }

  /** It is the smallest that will do among those that doubling gives. */
  lemma {:induction false} RaisedIs(threshold: nat, length: nat) returns (k: nat)
    requires threshold > 0
    ensures Raised(threshold, length) == Doubled(threshold, k) >= length
    ensures forall j: nat | j < k :: Doubled(threshold, j) < length
    decreases length - threshold
  {
    k := 0;
    if length > threshold {
      var h := RaisedIs(2 * threshold, length);
      k := h + 1;
      forall j: nat | j < k ensures Doubled(threshold, j) < length {
        if j > 0 { assert Doubled(threshold, j) == Doubled(2 * threshold, j - 1); }
      }
    }
  }

  class MessageQueue {
    const handle: int
    var queue: array<Msg>
    var cap: nat
    var head: nat
    var tail: nat
    var release: bool
    var inGlobal: bool
    var overload: nat
    var overloadThreshold: nat
    var next: MessageQueue?

    ghost predicate Valid()
      reads this
    {
      queue.Length == cap && cap > 1 && head < cap && tail < cap && overloadThreshold > 0
    }

    ghost function Contents(): seq<Msg>
      requires Valid()
      reads this, queue
    {
      Ring(queue[..], head, tail)
    }

    ghost function View(): Queue
      requires Valid()
      reads this, queue
    {
      Queue(Contents(), inGlobal, release)
    }

    /** 'skynet_mq_create': the creator of the service holds the new queue, so it is not to be scheduled. */
    constructor (handle: int)
      ensures Valid() && fresh(queue) && next == null && this.handle == handle
      ensures View() == Queue([], true, false)
    {
      this.handle := handle;
      queue := new Msg[DEFAULT_QUEUE_SIZE];
      cap, head, tail := DEFAULT_QUEUE_SIZE, 0, 0;
      release, inGlobal, next := false, true, null;
      overload, overloadThreshold := 0, MQ_OVERLOAD;
    }

    /** 'skynet_mq_length' */
    method Length() returns (n: nat)
      requires Valid()
      ensures n == |View().msgs|
    {
      if head <= tail {
        return tail - head;
      }
      return tail + cap - head;
    }

    /** 'skynet_mq_overload' */
    method Overload() returns (n: nat)
      modifies `overload
      ensures n == old(overload) && overload == 0
    {
      n := overload;
      if n != 0 {
        overload := 0;
      }
    }

    /** The end of 'skynet_mq_pop': remember a length beyond the threshold, and double the threshold. */
    method NoteLength(length: nat)
      requires overloadThreshold > 0
      modifies `overload, `overloadThreshold
      ensures overloadThreshold == Raised(old(overloadThreshold), length)
      ensures overload == if length > old(overloadThreshold) then length else old(overload)
    {
      while length > overloadThreshold
        invariant overloadThreshold > 0 && Raised(overloadThreshold, length) == Raised(old(overloadThreshold), length)
        invariant overload == if overloadThreshold > old(overloadThreshold) then length else old(overload)
        invariant overloadThreshold >= old(overloadThreshold)
        invariant overloadThreshold > old(overloadThreshold) ==> length > old(overloadThreshold)
        decreases length - overloadThreshold
      {
        overload := length;
        overloadThreshold := overloadThreshold * 2;
      }
    }

    /** 'skynet_mq_pop' */
    method Pop() returns (empty: bool, message: Msg)
      requires Valid()
      modifies `head, `inGlobal, `overload, `overloadThreshold
      ensures Valid() && View() == Popped(old(View()))
      ensures empty == (old(View()).msgs == []) && (!empty ==> message == old(View()).msgs[0])
      ensures !empty ==> overloadThreshold == Raised(old(overloadThreshold), |View().msgs|)
      ensures !empty ==> overload == if |View().msgs| > old(overloadThreshold) then |View().msgs| else old(overload)
      ensures empty ==> overloadThreshold == MQ_OVERLOAD && overload == old(overload)
    {
      hide Raised, Ring;
      RingLength(queue[..], head, tail);
      empty := true;
      message := Msg(0, 0, 0, 0);
      if head != tail {
        message := queue[head];
        TakeFirst(queue[..], head, tail);
        head := head + 1;
        empty := false;
        if head >= cap {
          head := 0;
        }
        RingLength(queue[..], head, tail);
        var length := tail - head;
        if length < 0 {
          length := length + cap;
        }
        NoteLength(length);
      } else {
        overloadThreshold := MQ_OVERLOAD;
      }
      if empty {
        inGlobal := false;
      }
    }

    /** 'expand_queue': called when the buffer is full, that is when head has met tail. */
    method ExpandQueue()
      requires Valid() && head == tail
      modifies `queue, `cap, `head, `tail
      ensures Valid() && fresh(queue)
      ensures Contents() == old(queue[head..] + queue[..head])
    {
      var newQueue := new Msg[cap * 2];
      var i := 0;
      while i < cap
        invariant i <= cap && newQueue.Length == cap * 2
        invariant forall j | 0 <= j < i :: newQueue[j] == queue[(head + j) % cap]
        modifies newQueue
      {
        newQueue[i] := queue[(head + i) % cap];
        i := i + 1;
      }
      assert newQueue[..cap] == queue[head..] + queue[..head] by {
        forall j | 0 <= j < cap ensures newQueue[j] == (queue[head..] + queue[..head])[j] {
          if j < cap - head { Wraps(head + j, cap); } else { Wraps(head + j - cap, cap); }
        }
      }
      head := 0;
      tail := cap;
      cap := cap * 2;
      queue := newQueue;
    }

    /** 'skynet_mq_push': append, and put the queue in the global list if nobody has it. */
    method Push(message: Msg, q: GlobalQueue)
      requires Valid() && q.Valid() && (!inGlobal ==> next == null && this !in q.list)
      modifies this, queue, q, q.list`next
      ensures Valid() && View() == Pushed(old(View()), message)
      ensures q.Valid() && q.list == old(q.list) + if old(inGlobal) then [] else [this]
      ensures queue == old(queue) || fresh(queue)
    {
      Put(message);
      if !inGlobal {
        inGlobal := true;
        q.Push(this);
      }
    }

    method Put(message: Msg)
      requires Valid()
      modifies queue, `queue, `cap, `head, `tail
      ensures Valid() && Contents() == old(Contents()) + [message]
      ensures queue == old(queue) || fresh(queue)
    {
      queue[tail] := message;
      tail := tail + 1;
      if tail >= cap {
        tail := 0;
      }
      if head == tail {
        ExpandQueue();
      }
    }

    /** 'skynet_mq_mark_release' */
    method MarkRelease(q: GlobalQueue)
      requires Valid() && q.Valid() && !release && (!inGlobal ==> next == null && this !in q.list)
      modifies this, q, q.list`next
      ensures Valid() && View() == old(View()).(release := true) && queue == old(queue)
      ensures q.Valid() && q.list == old(q.list) + if inGlobal then [] else [this]
    {
      release := true;
      if !inGlobal {
        q.Push(this);
      }
    }

    /** '_drop_queue', which returns the messages it drops; the queue is not to be used afterwards. */
    method DropQueue() returns (dropped: seq<Msg>)
      requires Valid() && next == null
      modifies `head, `inGlobal, `overload, `overloadThreshold
      ensures Valid() && dropped == old(Contents()) && View() == Queue([], false, release)
    {
      hide Ring, Raised;
      dropped := [];
      var empty, message := Pop();
      while !empty
        invariant Valid()
        invariant old(Contents()) == dropped + (if empty then [] else [message]) + Contents()
        invariant empty ==> Contents() == [] && !inGlobal
        decreases |Contents()|, !empty
      {
        dropped := dropped + [message];
        empty, message := Pop();
      }
    }

    /** 'skynet_mq_release': drop a released queue, give the other ones back to the global list. */
    method Release(q: GlobalQueue) returns (dropped: seq<Msg>)
      requires Valid() && q.Valid() && next == null && this !in q.list
      modifies this, q, q.list`next
      ensures Valid() && q.Valid()
      ensures release == old(release)
      ensures release ==> dropped == old(Contents()) && q.list == old(q.list)
      ensures !release ==> dropped == [] && View() == old(View()) && q.list == old(q.list) + [this]
    {
      dropped := [];
      if release {
        dropped := DropQueue();
      } else {
        q.Push(this);
      }
    }
  }

  class GlobalQueue {
    var head: MessageQueue?
    var tail: MessageQueue?
    ghost var list: seq<MessageQueue>

    ghost predicate Valid()
      reads this, list`next
    {
      && (forall i, j | 0 <= i < j < |list| :: list[i] != list[j])
      && (forall i | 0 <= i < |list| - 1 :: list[i].next == list[i + 1])
      && (list == [] ==> head == null && tail == null)
      && (list != [] ==> head == list[0] && tail == list[|list| - 1] && list[|list| - 1].next == null)
    }

    /** 'skynet_mq_init' */
    constructor ()
      ensures Valid() && list == []
    {
      head, tail, list := null, null, [];
    }

    /** 'skynet_globalmq_push' */
    method Push(queue: MessageQueue)
      requires Valid() && queue.next == null && queue !in list
      modifies this, list`next
      ensures Valid() && list == old(list) + [queue]
    {
      if tail != null {
        tail.next := queue;
        tail := queue;
      } else {
        head, tail := queue, queue;
      }
      list := list + [queue];
    }

    /** 'skynet_globalmq_pop' */
    method Pop() returns (mq: MessageQueue?)
      requires Valid()
      modifies this, list`next
      ensures Valid()
      ensures if old(list) == [] then mq == null && list == []
              else mq == old(list)[0] && mq.next == null && list == old(list)[1..]
    {
      mq := head;
      if mq != null {
        head := mq.next;
        if head == null {
          tail := null;
        }
        list := list[1..];
        mq.next := null;
      }
    }
  }
}
