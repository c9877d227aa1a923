/** Vocabulary shared by every module: results, chunked sources and their flattening. */
module Basics {

  datatype Option<+T> = None | Some(value: T)

  datatype Result<+T, +E> = Success(value: T) | Failure(error: E)

  /** The exceptions the modelled code throws, by cause. */
  datatype Error =
    | UnrecognisedPath     // IcebergUtils::GetFullPath
    | UnsupportedVersion   // InitializeFiles, IcebergTable::Load
    | UnknownType          // a type name no branch accepts
    | BadNumber            // a failed integer cast
    | OutOfRange           // an index past the end of the string
    | WrongArity           // a map that does not have two types
    | MissingField         // a JSON field that is absent or of another kind

  /** DuckDB's chunk capacity, the count every draining caller asks for. It is a build setting of DuckDB, by
      default this; no result needs more of it than that it is at least two. */
  const STANDARD_VECTOR_SIZE: nat := 2048

  /** What an Avro or Parquet scan hands out: non-empty chunks, then an empty one (not listed). */
  type Chunks<T> = ss: seq<seq<T>> | forall i | 0 <= i < |ss| :: ss[i] != [] witness []

  function Min(a: int, b: int): int {
    if a <= b then a else b
  }

  function Flatten<T>(ss: seq<seq<T>>): seq<T> {
    if ss == [] then [] else ss[0] + Flatten(ss[1..])
  }

  // ----- sequences -----------------------------------------------------------------------------

  lemma ConcatAssoc<T>(a: seq<T>, b: seq<T>, c: seq<T>)
    ensures a + b + c == a + (b + c)
  {
  }

  lemma ConcatNil<T>(a: seq<T>)
    ensures [] + a == a == a + []
  {
  }

  lemma ConcatHead<T>(a: seq<T>, b: seq<T>)
    requires a != []
    ensures (a + b)[0] == a[0] && (a + b)[1..] == a[1..] + b
  {
  }

  lemma TakeSnoc<T>(a: seq<T>, n: nat)
    requires n < |a|
    ensures a[..n + 1] == a[..n] + [a[n]]
  {
  }

  lemma SplitInThree<T>(a: seq<T>, i: nat, j: nat)
    requires i <= j <= |a|
    ensures a == a[..i] + (a[i..j] + a[j..])
  {
  }

  lemma ConcatCancel<T>(a: seq<T>, b: seq<T>, c: seq<T>)
    ensures a + b == a + c <==> b == c
  {
    if a + b == a + c {
      assert b == (a + b)[|a|..] == (a + c)[|a|..] == c;
    }
  }

  lemma {:induction false} FlattenConcat<T>(a: seq<seq<T>>, b: seq<seq<T>>)
    ensures Flatten(a + b) == Flatten(a) + Flatten(b)
  {
    if a == [] {
      ConcatNil(b);
      ConcatNil(Flatten(b));
    } else {
      FlattenConcat(a[1..], b);
      ConcatHead(a, b);
      ConcatAssoc(a[0], Flatten(a[1..]), Flatten(b));
    }
  }

  lemma FlattenSnoc<T>(a: seq<seq<T>>, last: seq<T>)
    ensures Flatten(a + [last]) == Flatten(a) + last
  {
    FlattenConcat(a, [last]);
    ConcatNil(last);
  }

  // ----- results of loops that stop at the first error --------------------------------------------

  function One<T>(head: Result<T, Error>): Result<seq<T>, Error> {
    match head case Failure(error) => Failure(error) case Success(value) => Success([value])
  }

  /** The first error wins. */
  function Cons<T>(head: Result<T, Error>, tail: Result<seq<T>, Error>): Result<seq<T>, Error> {
    if head.Failure? then Failure(head.error)
    else if tail.Failure? then Failure(tail.error)
    else Success([head.value] + tail.value)
  }

  /** What a loop returns that has pushed `done` and goes on with `rest`. */
  function Prepend<T>(done: seq<T>, rest: Result<seq<T>, Error>): Result<seq<T>, Error> {
    if rest.Failure? then Failure(rest.error) else Success(done + rest.value)
  }

  lemma PrependNothing<T>(r: Result<seq<T>, Error>)
    ensures Prepend([], r) == r
  {
    if r.Success? {
      ConcatNil(r.value);
    }
  }

  lemma PrependCons<T>(done: seq<T>, next: T, rest: Result<seq<T>, Error>)
    ensures Prepend(done, Cons(Success(next), rest)) == Prepend(done + [next], rest)
  {
    if rest.Success? {
      ConcatAssoc(done, [next], rest.value);
    }
  }
}
