/** Reassociations of concatenated sequences, for the encoders and their readers. */
module Sequences {

  lemma Assoc<T>(a: seq<T>, b: seq<T>, c: seq<T>)
    ensures (a + b) + c == a + (b + c)
  {
  }

  lemma AfterHead<T>(head: seq<T>, mid: seq<T>, more: seq<T>, tail: seq<T>)
    ensures (head + mid + more) + tail == head + (mid + (more + tail))
  {
  }

  lemma Wrapped<T>(open: T, inner: seq<T>, close: T, rest: seq<T>)
    ensures ([open] + inner + [close]) + rest == [open] + (inner + ([close] + rest))
  {
  }

  lemma DropFirst<T>(x: T, tail: seq<T>)
    ensures ([x] + tail)[1..] == tail
  {
  }
}
