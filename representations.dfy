/**
 * Comparing matching representations: the fallback from derivation to direct
 * representations, and the first-match searches the derivation strategy runs over them.
 * Each search is specified by a recursive function and carried out by a method with the
 * nested loops of the source.
 */
module Representations {
  import opened Wrappers
  import opened Parsing

  /** The representations compared under derivation matching: derivation ones if present, else direct ones. */
  function Resolve(direct: seq<string>, derivation: Option<seq<string>>): (r: seq<string>)
    ensures derivation.Some? ==> r == derivation.value
    ensures derivation.None? ==> r == direct
  {
    match derivation
    case Some(reprs) => reprs
    case None => direct
  }

  /** A span's representations under derivation matching. */
  function SpanReprs(span: MultiwordSpan): (r: seq<string>)
    ensures span.derivation.Some? ==> r == span.derivation.value
    ensures span.derivation.None? ==> r == span.direct
  {
    Resolve(span.direct, span.derivation)
  }

  /** The position of the first occurrence of `w` in `reprs`. */
  function IndexOf(w: string, reprs: seq<string>): (r: Option<nat>)
    ensures r.Some? ==> r.value < |reprs| && reprs[r.value] == w
                        && forall l :: 0 <= l < r.value ==> reprs[l] != w
    ensures r.None? <==> w !in reprs
  {
    if reprs == [] then None
    else if reprs[0] == w then Some(0)
    else match IndexOf(w, reprs[1..])
      case None => None
      case Some(j) => Some(j + 1)
  }

  /**
   * The first pair of equal representations, with the search-phrase side in the outer
   * loop and the document side in the inner loop: the earliest search-phrase
   * representation that occurs on the document side, and its first position there.
   */
  function FirstShared(sp: seq<string>, doc: seq<string>): (r: Option<(nat, nat)>)
    ensures r.Some? ==> r.value.0 < |sp| && IndexOf(sp[r.value.0], doc) == Some(r.value.1)
                        && forall k :: 0 <= k < r.value.0 ==> sp[k] !in doc
    ensures r.None? <==> forall k :: 0 <= k < |sp| ==> sp[k] !in doc
  {
    if sp == [] then None
    else
      var here := IndexOf(sp[0], doc);
      if here.Some? then Some((0, here.value))
      else
        var rest := FirstShared(sp[1..], doc);
        if rest.None? then None else Some((rest.value.0 + 1, rest.value.1))
  }

  /** Loops over `reprs` and stops at the first element equal to `w`. */
  method FindIndex(w: string, reprs: seq<string>) returns (r: Option<nat>)
    ensures r == IndexOf(w, reprs)
  {
    for j := 0 to |reprs|
      invariant forall l :: 0 <= l < j ==> reprs[l] != w
    {
      if w == reprs[j] {
        return Some(j);
      }
    }
    return None;
  }

  /** Loops over both sides, the search-phrase side outside, and stops at the first equal pair. */
  method FindShared(sp: seq<string>, doc: seq<string>) returns (r: Option<(nat, nat)>)
    ensures r == FirstShared(sp, doc)
  {
    for i := 0 to |sp|
      invariant forall k :: 0 <= k < i ==> sp[k] !in doc
    {
      var j := FindIndex(sp[i], doc);
      if j.Some? {
        return Some((i, j.value));
      }
    }
    return None;
  }

  /** Whether some span's resolved representations contain `w`. */
  predicate InSomeSpan(w: string, spans: seq<MultiwordSpan>) {
    exists l :: 0 <= l < |spans| && w in SpanReprs(spans[l])
  }

  /** The first span whose resolved representations contain `w`, and the position of `w` in them. */
  function SpanIndexOf(w: string, spans: seq<MultiwordSpan>): (r: Option<(nat, nat)>)
    ensures r.Some? ==> r.value.0 < |spans| && IndexOf(w, SpanReprs(spans[r.value.0])) == Some(r.value.1)
                        && forall l :: 0 <= l < r.value.0 ==> w !in SpanReprs(spans[l])
    ensures r.None? <==> !InSomeSpan(w, spans)
  {
    if spans == [] then None
    else
      var here := IndexOf(w, SpanReprs(spans[0]));
      if here.Some? then Some((0, here.value))
      else
        var rest := SpanIndexOf(w, spans[1..]);
        if rest.None? then None else Some((rest.value.0 + 1, rest.value.1))
  }

  /**
   * The first hit of a search over search-phrase representations (outermost), then
   * spans, then each span's resolved representations (innermost): the earliest
   * representation found in any span, the first span holding it, and its position there.
   */
  function FirstSpanShared(reprs: seq<string>, spans: seq<MultiwordSpan>): (r: Option<(nat, nat, nat)>)
    ensures r.Some? ==> r.value.0 < |reprs| && SpanIndexOf(reprs[r.value.0], spans) == Some((r.value.1, r.value.2))
                        && forall k :: 0 <= k < r.value.0 ==> SpanIndexOf(reprs[k], spans).None?
    ensures r.None? <==> forall k :: 0 <= k < |reprs| ==> SpanIndexOf(reprs[k], spans).None?
  {
    if reprs == [] then None
    else
      var here := SpanIndexOf(reprs[0], spans);
      if here.Some? then Some((0, here.value.0, here.value.1))
      else
        var rest := FirstSpanShared(reprs[1..], spans);
        assert forall k :: 1 <= k < |reprs| ==> reprs[k] == reprs[1..][k - 1];
        if rest.None? then None else Some((rest.value.0 + 1, rest.value.1, rest.value.2))
  }

  /** Loops over the spans, and over each span's resolved representations, and stops at the first one equal to `w`. */
  method FindSpan(w: string, spans: seq<MultiwordSpan>) returns (r: Option<(nat, nat)>)
    ensures r == SpanIndexOf(w, spans)
  {
    for l := 0 to |spans|
      invariant forall q :: 0 <= q < l ==> w !in SpanReprs(spans[q])
    {
      var documentReprs := if spans[l].derivation.Some? then spans[l].derivation.value else spans[l].direct;
      assert documentReprs == SpanReprs(spans[l]);
      var n := FindIndex(w, documentReprs);
      if n.Some? {
        assert SpanIndexOf(w, spans).Some? && SpanIndexOf(w, spans).value.0 == l;
        return Some((l, n.value));
      }
    }
    return None;
  }

  /** Loops over representations, then spans, then each span's representations, and stops at the first equal pair. */
  method FindSharedInSpans(reprs: seq<string>, spans: seq<MultiwordSpan>) returns (r: Option<(nat, nat, nat)>)
    ensures r == FirstSpanShared(reprs, spans)
  {
    for i := 0 to |reprs|
      invariant forall k :: 0 <= k < i ==> SpanIndexOf(reprs[k], spans).None?
    {
      var hit := FindSpan(reprs[i], spans);
      if hit.Some? {
        assert FirstSpanShared(reprs, spans).Some? && FirstSpanShared(reprs, spans).value.0 == i;
        return Some((i, hit.value.0, hit.value.1));
      }
    }
    return None;
  }
}
