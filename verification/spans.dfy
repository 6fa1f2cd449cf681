/** Source spans of a path (src/ast/span.rs:8-49). */
module Spans {
  import opened Wrappers

  /** `Span`: the half-open range `[start, end)` of character positions. */
  datatype Span = Span(start: nat, end: nat)

  function Min(x: nat, y: nat): nat { if x <= y then x else y }
  function Max(x: nat, y: nat): nat { if x >= y then x else y }

  /** `a` lies within `b`. */
  predicate Within(a: Span, b: Span) {
    b.start <= a.start && a.end <= b.end
  }

  /** `Span::join`: the smallest span whose start and end bound both spans. */
  function Join(a: Span, b: Span): (r: Span)
    ensures r.start <= a.start && r.start <= b.start
    ensures r.start == a.start || r.start == b.start
    ensures r.end >= a.end && r.end >= b.end
    ensures r.end == a.end || r.end == b.end
  {
    Span(Min(a.start, b.start), Max(a.end, b.end))
  }

  /** `join` is commutative, associative and idempotent. */
  lemma JoinAlgebra(a: Span, b: Span, c: Span)
    ensures Join(a, b) == Join(b, a)
    ensures Join(Join(a, b), c) == Join(a, Join(b, c))
    ensures Join(a, a) == a
  {
  }

  /** Both operands of a join lie within it, and it is the least span (by start and end
      bounds) that bounds both. */
  lemma JoinIsLeastBound(a: Span, b: Span, c: Span)
    ensures Within(a, Join(a, b)) && Within(b, Join(a, b))
    ensures c.start <= a.start && c.start <= b.start && c.end >= a.end && c.end >= b.end
      ==> c.start <= Join(a, b).start && Join(a, b).end <= c.end
  {
  }

  /** `From<Range<usize>> for Span` */
  function FromRange(start: nat, end: nat): (r: Span)
    ensures r.start == start && r.end == end
  {
    Span(start, end)
  }

  /** `Span::get_span`: the characters at positions `[start, end)` of the source. Both the
      start and the end position must name a character of the source (`nth` must find one),
      and the start must not pass the end; otherwise it panics. */
  function GetSpan(span: Span, source: string): (r: Outcome<string>)
    ensures r.Return? <==> span.start <= span.end < |source|
    ensures r.Return? ==> |r.value| == span.end - span.start
    ensures r.Return? ==> forall i :: 0 <= i < |r.value| ==> r.value[i] == source[span.start + i]
  {
    if span.start < |source| && span.end < |source| then
      if span.start <= span.end then Return(source[span.start..span.end])
      else Panic("slice index starts after its end")
    else Panic("Invalid source for span")
  }

  /** Fold of `join` over a non-empty list of spans, from the left. */
  function JoinAll(first: Span, rest: seq<Span>): (r: Span)
    decreases |rest|
  {
    if rest == [] then first else JoinAll(Join(first, rest[0]), rest[1..])
  }

  /** The fold starts at the least start and ends at the greatest end of all the spans. */
  lemma {:induction false} JoinAllBounds(first: Span, rest: seq<Span>)
    ensures JoinAll(first, rest).start <= first.start && JoinAll(first, rest).end >= first.end
    ensures forall i :: 0 <= i < |rest| ==>
      JoinAll(first, rest).start <= rest[i].start && JoinAll(first, rest).end >= rest[i].end
    ensures JoinAll(first, rest).start == first.start
      || exists i :: 0 <= i < |rest| && JoinAll(first, rest).start == rest[i].start
    ensures JoinAll(first, rest).end == first.end
      || exists i :: 0 <= i < |rest| && JoinAll(first, rest).end == rest[i].end
    decreases |rest|
  {
    if rest != [] {
      var j := Join(first, rest[0]);
      JoinAllBounds(j, rest[1..]);
      var r := JoinAll(j, rest[1..]);
      forall i | 0 <= i < |rest|
        ensures r.start <= rest[i].start && r.end >= rest[i].end
      {
        if i > 0 { assert rest[i] == rest[1..][i - 1]; }
      }
      if r.start != j.start {
        var i :| 0 <= i < |rest[1..]| && r.start == rest[1..][i].start;
        assert r.start == rest[i + 1].start;
      } else if r.start != first.start {
        assert r.start == rest[0].start;
      }
      if r.end != j.end {
        var i :| 0 <= i < |rest[1..]| && r.end == rest[1..][i].end;
        assert r.end == rest[i + 1].end;
      } else if r.end != first.end {
        assert r.end == rest[0].end;
      }
    }
  }

  /** Joining one more span onto a fold is the fold of the longer list. */
  lemma {:induction false} JoinAllSnoc(first: Span, rest: seq<Span>, last: Span)
    ensures JoinAll(first, rest + [last]) == Join(JoinAll(first, rest), last)
    decreases |rest|
  {
    if rest != [] {
      assert (rest + [last])[1..] == rest[1..] + [last];
      JoinAllSnoc(Join(first, rest[0]), rest[1..], last);
    }
  }
}
