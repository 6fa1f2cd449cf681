/** Failure-carrying datatypes shared by the whole model. */
module Wrappers {

  /** Rust's `Option`. */
  datatype Option<+T> = None | Some(value: T)

  /** Rust's `Result`, used for the recoverable errors of the library. */
  datatype Result<+T, +E> = Ok(value: T) | Err(error: E)

  /** The outcome of Rust code that may panic: a value, or a panic (an `assert!`, `unwrap`,
      `expect`, `unreachable!`, `todo!`, an out-of-range slice or index, or a debug-mode integer
      overflow). Rust panics are never recovered from inside the library. */
  datatype Outcome<+T> = Return(value: T) | Panic(message: string)

  /** A loop that runs a step that may panic on each element in order and collects the
      results: it panics with the first panic, else returns every result in order. */
  function Collect<A, B>(f: A --> Outcome<B>, xs: seq<A>): (r: Outcome<seq<B>>)
    requires forall i :: 0 <= i < |xs| ==> f.requires(xs[i])
    ensures r.Return? ==> |r.value| == |xs| && forall i :: 0 <= i < |xs| ==> f(xs[i]) == Return(r.value[i])
    ensures r.Panic? ==>
              exists i :: 0 <= i < |xs| && f(xs[i]) == Panic(r.message) && forall j :: 0 <= j < i ==> f(xs[j]).Return?
  {
    if xs == [] then Return([])
    else
      var head := f(xs[0]);
      if head.Panic? then Panic(head.message)
      else
        var tail := Collect(f, xs[1..]);
        assert xs == [xs[0]] + xs[1..];
        if tail.Panic? then Panic(tail.message) else Return([head.value] + tail.value)
  }

  /** `core::cmp::Ordering`. */
  datatype Ordering = Less | Equal | Greater {
    /** `Ordering::reverse` */
    function Reverse(): (r: Ordering)
      ensures r == Less <==> this == Greater
      ensures r == Greater <==> this == Less
    {
      match this
      case Less => Greater
      case Equal => Equal
      case Greater => Less
    }
  }

  /** `Ord::cmp` on integers. */
  function Cmp(x: int, y: int): (r: Ordering)
    ensures r == Less <==> x < y
    ensures r == Greater <==> x > y
  {
    if x < y then Less else if x == y then Equal else Greater
  }
}
