/**
  The ring buffer of one service's message queue: an array with a head and a tail that wrap, one
  slot of which always stays free, doubled when the last slot is taken.
 */
module MessageQueue {

  const DEFAULT_QUEUE_SIZE: nat := 64
  const MQ_OVERLOAD: nat := 1024

  /** The slot `i` places after `head` in a ring of `cap` slots. */
  function Wrapped(head: nat, i: nat, cap: nat): (r: nat)
    requires head < cap && i < cap
    ensures r < cap
  {
    if head + i < cap then head + i else head + i - cap
  }

  class Ring<T> {
    var queue: array<T>
    var head: nat
    var tail: nat
    var overload: nat
    var overloadThreshold: nat

    ghost predicate Valid()
      reads this
    {
      head < queue.Length && tail < queue.Length && overloadThreshold >= MQ_OVERLOAD
    }

    function Length(): (n: nat)
      requires Valid()
      reads this
      ensures n < queue.Length
    {
      if head <= tail then tail - head else tail + queue.Length - head
    }

    ghost function Contents(): (s: seq<T>)
      requires Valid()
      reads this, queue
      ensures |s| == Length()
      ensures forall i :: 0 <= i < |s| ==> s[i] == queue[Wrapped(head, i, queue.Length)]
    {
      if head <= tail then queue[head..tail] else queue[head..] + queue[..tail]
    }

    constructor (filler: T)
      ensures Valid() && fresh(queue) && Contents() == []
      ensures overload == 0 && overloadThreshold == MQ_OVERLOAD
    {
      queue := new T[DEFAULT_QUEUE_SIZE](_ => filler);
      head, tail, overload, overloadThreshold := 0, 0, 0, MQ_OVERLOAD;
    }

    /** `expand_queue`: every slot is taken; the new array has twice as many and starts at the head. */
    method ExpandQueue(filler: T)
      requires Valid() && head == tail
      modifies this`queue, this`head, this`tail
      ensures Valid() && fresh(queue)
      ensures queue.Length == 2 * old(queue.Length)
      ensures Contents() == old(queue[head..] + queue[..head])
    {
      var cap := queue.Length;
      var bigger := new T[cap * 2](_ => filler);
      var i := 0;
      while i < cap
        invariant i <= cap
        invariant unchanged(this) && unchanged(queue)
        invariant forall j :: 0 <= j < i ==> bigger[j] == queue[Wrapped(head, j, cap)]
      {
        bigger[i] := queue[if head + i < cap then head + i else head + i - cap];
        i := i + 1;
      }
      head, tail, queue := 0, cap, bigger;
    }

    method Push(message: T)
      requires Valid()
      modifies this`queue, this`head, this`tail, queue
      ensures Valid() && (queue == old(queue) || fresh(queue))
      ensures Contents() == old(Contents()) + [message]
    {
      queue[tail] := message;
      tail := tail + 1;
      if tail >= queue.Length {
        tail := 0;
      }
      if head == tail {
        ExpandQueue(message);
      }
    }

    /**
      The oldest message, if there is one.  The overload mark is raised when the queue has grown
      past the threshold, which doubles until it is above the length, and is reset when the queue
      is found empty.
     */
    method Pop() returns (found: bool, message: seq<T>)
      requires Valid()
      modifies this`head, this`overload, this`overloadThreshold
      ensures Valid()
      ensures found <==> old(Contents()) != []
      ensures found ==> message == [old(Contents())[0]] && Contents() == old(Contents())[1..]
      ensures !found ==> message == [] && Contents() == [] && overloadThreshold == MQ_OVERLOAD && overload == old(overload)
      ensures found ==> Length() <= overloadThreshold && overloadThreshold >= old(overloadThreshold)
      ensures found ==> overload == if Length() > old(overloadThreshold) then Length() else old(overload)
    {
      if head != tail {
        found, message := true, [queue[head]];
        head := head + 1;
        if head >= queue.Length {
          head := 0;
        }
        var length := Length();
        ghost var was := overloadThreshold;
        while length > overloadThreshold
          invariant overloadThreshold >= was >= MQ_OVERLOAD
          invariant overload == if overloadThreshold == was then old(overload) else length
          invariant overloadThreshold > was ==> length > was
          invariant Valid() && Length() == length && head == (if old(head) + 1 >= queue.Length then 0 else old(head) + 1)
          decreases length - overloadThreshold
        {
          overload := length;
          overloadThreshold := overloadThreshold * 2;
        }
      } else {
        found, message := false, [];
        overloadThreshold := MQ_OVERLOAD;
      }
    }

    /** `skynet_mq_overload`: report the mark once. */
    method Overload() returns (r: nat)
      requires Valid()
      modifies this`overload
      ensures Valid() && r == old(overload) && overload == 0
    {
      r := overload;
      overload := 0;
    }
  }
}
