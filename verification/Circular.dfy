// The contents of a circular buffer, from head up to but not including tail.
module Circular {
  function Ring<T>(b: seq<T>, head: nat, tail: nat): seq<T>
    requires head < |b| && tail < |b|
  {
    if head <= tail then b[head..tail] else b[head..] + b[..tail]
  }

  lemma RingLength<T>(b: seq<T>, head: nat, tail: nat)
    requires head < |b| && tail < |b|
    ensures |Ring(b, head, tail)| == if head <= tail then tail - head else tail + |b| - head
  {
  }

  lemma TakeFirst<T>(b: seq<T>, head: nat, tail: nat)
    requires head < |b| && tail < |b| && head != tail
    ensures Ring(b, head, tail) == [b[head]] + Ring(b, if head + 1 == |b| then 0 else head + 1, tail)
  {
  }

  lemma Wraps(k: nat, cap: nat)
    requires k < cap
    ensures k % cap == k && (k + cap) % cap == k
  {
  }
}
