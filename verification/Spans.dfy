// Words of a text, as ranges of positions.
module Spans {

  datatype Span = Span(start: nat, end: nat)

  /** Words are not empty, inside the text, in order and disjoint. */
  ghost predicate IsTokenisation<T>(text: seq<T>, spans: seq<Span>) {
    && (forall i :: 0 <= i < |spans| ==> spans[i].start < spans[i].end <= |text|)
    && (forall i, j :: 0 <= i < j < |spans| ==> spans[i].end <= spans[j].start)
  }
}
