/**
 * `sort_list` and the pop loop of `sync_output_log`: the batch is sorted by
 * its lines' keys with `sorted(..., reverse=True)`, which raises when a line
 * has no key, and popping the sorted list from its tail writes the lines in
 * non-decreasing key order.
 */
module SortOrder {
  import opened Wrappers
  import opened KeyExtraction
  import opened StableSort

  /** Every line of the batch yields a key; otherwise the key function raises. */
  predicate AllKeyed(parse: string -> Option<real>, batch: seq<string>) {
    forall i :: 0 <= i < |batch| ==> LineKey(parse, batch[i]).Some?
  }

  /** The key function handed to `sorted`, for a batch in which every line has a key. */
  function KeyOf(parse: string -> Option<real>): string -> real {
    (line: string) => SortKey(parse, line)
  }

  /**
   * `sort_list`: None when some line has no key (the key function raises),
   * otherwise the batch sorted by SortDesc; SortListOrders states what that is.
   */
  function SortList(parse: string -> Option<real>, batch: seq<string>): (r: Option<seq<string>>)
    ensures r.Some? <==> AllKeyed(parse, batch)
    ensures r.Some? ==> |r.value| == |batch|
  {
    if AllKeyed(parse, batch) then
      SortDescPermutation(KeyOf(parse), batch);
      assert |multiset(SortDesc(KeyOf(parse), batch))| == |multiset(batch)|;
      Some(SortDesc(KeyOf(parse), batch))
    else None
  }

  /**
   * A sorted batch is a permutation of the batch in non-increasing key order
   * in which lines of equal key keep their batch order.
   */
  lemma SortListOrders(parse: string -> Option<real>, batch: seq<string>)
    requires AllKeyed(parse, batch)
    ensures var sorted := SortList(parse, batch).value;
      && multiset(sorted) == multiset(batch)
      && Descending(KeyOf(parse), sorted)
      && forall v :: WithKey(KeyOf(parse), sorted, v) == WithKey(KeyOf(parse), batch, v)
  {
    SortDescPermutation(KeyOf(parse), batch);
    SortDescDescending(KeyOf(parse), batch);
    SortDescStable(KeyOf(parse), batch);
  }

  /**
   * What a flush appends: popping the sorted batch from its tail yields the
   * batch's lines, each as often as in the batch, in non-decreasing key
   * order, with lines of equal key in the REVERSE of their batch order.
   */
  lemma FlushOrder(parse: string -> Option<real>, batch: seq<string>)
    requires AllKeyed(parse, batch)
    ensures var out := Reversed(SortList(parse, batch).value);
      && multiset(out) == multiset(batch)
      && Ascending(KeyOf(parse), out)
      && forall v :: WithKey(KeyOf(parse), out, v) == Reversed(WithKey(KeyOf(parse), batch, v))
  {
    var sorted := SortList(parse, batch).value;
    SortListOrders(parse, batch);
    ReversedMultiset(sorted);
    ReversedAscending(KeyOf(parse), sorted);
    forall v ensures WithKey(KeyOf(parse), Reversed(sorted), v) == Reversed(WithKey(KeyOf(parse), batch, v)) {
      WithKeyReversed(KeyOf(parse), sorted, v);
    }
  }

  /**
   * Two keyed lines cached in the same batch, `a` before `b`: the output gets
   * them in key order, and when their keys are equal, `b` first.
   */
  lemma TwoLineFlush(parse: string -> Option<real>, a: string, b: string)
    requires LineKey(parse, a).Some? && LineKey(parse, b).Some?
    ensures SortList(parse, [a, b]).Some?
    ensures Reversed(SortList(parse, [a, b]).value)
         == if LineKey(parse, a).value < LineKey(parse, b).value then [a, b] else [b, a]
  {
    var key := KeyOf(parse);
    assert AllKeyed(parse, [a, b]);
    assert [a, b][..1] == [a] && [a][..0] == [];
    assert SortDesc(key, [a]) == [a];
    var sorted := Insert(key, b, [a]);
    assert SortDesc(key, [a, b]) == sorted;
    assert key(a) == LineKey(parse, a).value && key(b) == LineKey(parse, b).value;
    if key(a) >= key(b) {
      assert Insert(key, b, [a][1..]) == [b];
      assert sorted == [a, b];
    } else {
      assert sorted == [b, a];
    }
    var out := Reversed(sorted);
    assert |out| == 2 && out[0] == sorted[1] && out[1] == sorted[0];
    assert out == [sorted[1], sorted[0]];
  }
}
