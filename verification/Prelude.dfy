/** The two result types every other module uses, and lists read one element at a time. */
module Prelude {
  /** A value the source writes as `None` or as itself. */
  datatype Option<+T> = None | Some(value: T)

  /** The outcome of an operation that returns or raises. */
  datatype Result<+T, +E> = Ok(value: T) | Err(error: E)

  /** What is read off a list by reading its last element after the others. */
  ghost predicate ReadsOneByOne<S(!new), T>(read: seq<S> -> seq<T>, piece: S -> seq<T>) {
    read([]) == [] && forall before, last :: read(before + [last]) == read(before) + piece(last)
  }

  lemma {:induction false} ReadInOrder<S(!new), T>(read: seq<S> -> seq<T>, piece: S -> seq<T>, a: seq<S>, b: seq<S>)
    requires ReadsOneByOne(read, piece)
    ensures read(a + b) == read(a) + read(b)
  {
    if b == [] {
      assert a + b == a && read(a) + [] == read(a);
    } else {
      var before, last := b[..|b| - 1], b[|b| - 1];
      ReadInOrder(read, piece, a, before);
      assert b == before + [last] && a + b == (a + before) + [last];
      assert (read(a) + read(before)) + piece(last) == read(a) + (read(before) + piece(last));
    }
  }

  /** The same of what is read off a list by reading its first element before the others. */
  ghost predicate ReadsFirstToLast<S(!new), T>(read: seq<S> -> seq<T>, piece: S -> seq<T>) {
    read([]) == [] && forall first, others :: read([first] + others) == piece(first) + read(others)
  }

  lemma {:induction false} ReadFirstInOrder<S(!new), T>(read: seq<S> -> seq<T>, piece: S -> seq<T>,
                                                        a: seq<S>, b: seq<S>)
    requires ReadsFirstToLast(read, piece)
    ensures read(a + b) == read(a) + read(b)
  {
    if a == [] {
      assert a + b == b && read(a) + read(b) == read(b);
    } else {
      var first, others := a[0], a[1..];
      ReadFirstInOrder(read, piece, others, b);
      assert a == [first] + others && a + b == [first] + (others + b);
      assert piece(first) + (read(others) + read(b)) == (piece(first) + read(others)) + read(b);
    }
  }

  /** What is read by leaving some elements out holds just the others. */
  lemma {:induction false} ReadKeeps<T(!new)>(read: seq<T> -> seq<T>, keep: T -> bool, list: seq<T>)
    requires ReadsOneByOne(read, x => if keep(x) then [x] else [])
    ensures forall x :: x in read(list) <==> x in list && keep(x)
  {
    if list != [] {
      var before, last := list[..|list| - 1], list[|list| - 1];
      ReadKeeps(read, keep, before);
      assert list == before + [last];
    }
  }
}
