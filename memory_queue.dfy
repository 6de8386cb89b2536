/** The crawler's in-memory link queue: a FIFO of strings kept in one array field.
    PHP's loose comparisons (`in_array`, `!= null`) are modelled as string equality. */
module Queue {

  /** The distinct elements of a queue. */
  function Elems(q: seq<string>): set<string>
  {
    set x | x in q
  }

  /** `data` with every element that belongs to `drop` taken out; the survivors keep
      their order and their repetitions. Defined by peeling the LAST element, which is
      the order in which a front-to-back traversal finishes it. */
  function Without(data: seq<string>, drop: set<string>): seq<string>
  {
    if data == [] then []
    else
      var last := data[|data| - 1];
      Without(data[..|data| - 1], drop) + (if last in drop then [] else [last])
  }

  /** Filtering a concatenation filters each part. */
  lemma {:induction false} WithoutConcat(a: seq<string>, b: seq<string>, drop: set<string>)
    ensures Without(a + b, drop) == Without(a, drop) + Without(b, drop)
    decreases |b|
  {
    if b == [] {
      assert a + b == a;
    } else {
      var b' := b[..|b| - 1];
      assert (a + b)[..|a + b| - 1] == a + b';
      WithoutConcat(a, b', drop);
    }
  }

  /** An element survives the filter iff it was in `data` and is not dropped. */
  lemma {:induction false} WithoutMembership(data: seq<string>, drop: set<string>, x: string)
    ensures x in Without(data, drop) <==> x in data && x !in drop
    decreases |data|
  {
    if data != [] {
      var init := data[..|data| - 1];
      WithoutMembership(init, drop, x);
      assert data == init + [data[|data| - 1]];
    }
  }

  /** Every occurrence of a kept value survives and no dropped value remains. */
  lemma {:induction false} WithoutMultiplicity(data: seq<string>, drop: set<string>, x: string)
    ensures multiset(Without(data, drop))[x] == if x in drop then 0 else multiset(data)[x]
    decreases |data|
  {
    if data != [] {
      var init := data[..|data| - 1];
      WithoutMultiplicity(init, drop, x);
      assert data == init + [data[|data| - 1]];
    }
  }

  /** Nothing is taken out of a sequence none of whose elements is dropped. */
  lemma {:induction false} WithoutNothingDropped(data: seq<string>, drop: set<string>)
    requires forall i :: 0 <= i < |data| ==> data[i] !in drop
    ensures Without(data, drop) == data
    decreases |data|
  {
    if data != [] {
      var init := data[..|data| - 1];
      WithoutNothingDropped(init, drop);
      assert data == init + [data[|data| - 1]];
    }
  }

  /** The queue class; `queue` holds the elements front first. */
  class MemoryQueue {
    var queue: seq<string>

    constructor ()
      ensures queue == []
    {
      queue := [];
    }

    /** Enqueues every element of `value`, one `array_push` at a time, at the back. */
    method Push(value: seq<string>)
      modifies this
      ensures queue == old(queue) + value
    {
      for i := 0 to |value|
        invariant queue == old(queue) + value[..i]
      {
        queue := queue + [value[i]];
      }
      assert value[..|value|] == value;
    }

    /** Dequeues the front element; an empty queue yields '' (the null of
        `array_shift` fails the `!= null` test) and stays empty. A front element ''
        is returned as '' by either branch. */
    method Out() returns (front: string)
      modifies this
      ensures old(queue) == [] ==> front == "" && queue == []
      ensures old(queue) != [] ==> front == old(queue)[0] && queue == old(queue)[1..]
    {
      if queue == [] {
        front := "";
      } else {
        front := queue[0];
        queue := queue[1..];
      }
    }

    /** Whether `v` occurs somewhere in the queue. */
    function Has(v: string): (b: bool)
      reads this
      ensures b <==> exists i :: 0 <= i < |queue| && queue[i] == v
    {
      v in queue
    }

    /** Whether the queue holds no element. */
    function IsEmpty(): (b: bool)
      reads this
      ensures b <==> |queue| == 0
    {
      queue == []
    }

    method Clear()
      modifies this
      ensures queue == []
    {
      queue := [];
    }

    /** Returns `data` without the elements already queued, in their original order;
        the queue itself is only read. */
    method RemoveRepeat(data: seq<string>) returns (kept: seq<string>)
      ensures kept == Without(data, Elems(queue))
      ensures forall i :: 0 <= i < |kept| ==> !Has(kept[i])
    {
      kept := [];
      for i := 0 to |data|
        invariant kept == Without(data[..i], Elems(queue))
      {
        assert data[..i + 1][..i] == data[..i];
        if !Has(data[i]) {
          kept := kept + [data[i]];
        }
      }
      assert data[..|data|] == data;
      forall i | 0 <= i < |kept|
        ensures !Has(kept[i])
      {
        WithoutMembership(data, Elems(queue), kept[i]);
      }
    }
  }

  /** FIFO order: pushing `xs` onto an empty queue and then calling `Out` once per
      element hands the elements back in push order and empties the queue. */
  method PushThenDrainIsFifo(xs: seq<string>) returns (drained: seq<string>)
    ensures drained == xs
  {
    var q := new MemoryQueue();
    q.Push(xs);
    drained := [];
    while !q.IsEmpty()
      invariant xs == drained + q.queue
      decreases |q.queue|
    {
      var x := q.Out();
      drained := drained + [x];
    }
  }
}
