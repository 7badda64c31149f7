/** The page limiter and the batch planner that all three variants of
    `extract_text_from_pdf` share: how many pages to process, and the inclusive page
    ranges that `range(1, pages_to_process + 1, pages_per_batch)` hands to the
    rasterizer. */
module Batching {
  import opened Common

  /** One call to the rasterizer: the inclusive, 1-based page range
      `first_page=first, last_page=last`. */
  datatype Batch = Batch(first: int, last: int)

  /** `min(total_pages, max_pages) if max_pages else total_pages`. A limit of `None`
      or `0` is falsy and means "all pages"; any other limit, negative ones included,
      is applied with `min`. */
  function PagesToProcess(totalPages: nat, maxPages: Option<int>): (pages: int)
    ensures pages <= totalPages
    ensures pages < totalPages <==> maxPages.Some? && maxPages.value != 0 && maxPages.value < totalPages
    ensures pages < totalPages ==> pages == maxPages.value
    ensures 0 <= pages <==> maxPages.None? || maxPages.value >= 0
  {
    if maxPages.Some? && maxPages.value != 0 then Min(totalPages, maxPages.value) else totalPages
  }

  /** The pages `lo..hi`, ascending; empty when `lo > hi`. */
  function Span(lo: int, hi: int): (s: seq<int>)
    ensures |s| == if lo <= hi then hi - lo + 1 else 0
    ensures forall i :: 0 <= i < |s| ==> s[i] == lo + i
  {
    if lo > hi then [] else seq(hi - lo + 1, i requires 0 <= i => lo + i)
  }

  /** The batch is a non-empty range of at most `size` pages inside `from..pages`. */
  predicate Within(b: Batch, from: int, pages: int, size: nat) {
    from <= b.first <= b.last <= pages && b.last - b.first < size
  }

  /** The batches of the loop `for start in range(from, pages + 1, size)`, each ending at
      `min(start + size - 1, pages)`. Every batch is a non-empty range of at most
      `size` pages inside `from..pages`. */
  function BatchesFrom(from: int, pages: int, size: nat): (bs: seq<Batch>)
    requires size >= 1
    ensures forall i {:trigger Within(bs[i], from, pages, size)} :: 0 <= i < |bs| ==> Within(bs[i], from, pages, size)
    decreases pages + 1 - from
  {
    if from > pages then []
    else
      var rest := BatchesFrom(from + size, pages, size);
      var bs := [Batch(from, Min(from + size - 1, pages))] + rest;
      assert forall i :: 0 < i < |bs| ==> bs[i] == rest[i - 1] && Within(rest[i - 1], from + size, pages, size);
      bs
  }

  /** The batches of one run over `pages` pages. */
  function Batches(pages: int, size: nat): seq<Batch>
    requires size >= 1
  {
    BatchesFrom(1, pages, size)
  }

  /** The pages a batch covers, in the order the rasterizer returns them. */
  function PagesOf(b: Batch): seq<int> {
    Span(b.first, b.last)
  }

  /** The pages a sequence of batches covers, batch after batch. */
  function Flatten(bs: seq<Batch>): seq<int> {
    if bs == [] then [] else PagesOf(bs[0]) + Flatten(bs[1..])
  }

  lemma {:induction false} FlattenAppend(a: seq<Batch>, b: seq<Batch>)
    ensures Flatten(a + b) == Flatten(a) + Flatten(b)
  {
    if a == [] {
      assert a + b == b;
    } else {
      assert (a + b)[1..] == a[1..] + b;
      FlattenAppend(a[1..], b);
    }
  }

  lemma SpanSplit(lo: int, mid: int, hi: int)
    requires lo <= mid + 1 <= hi + 1
    ensures Span(lo, hi) == Span(lo, mid) + Span(mid + 1, hi)
  {
    var whole, left, right := Span(lo, hi), Span(lo, mid), Span(mid + 1, hi);
    assert |whole| == |left| + |right|;
    forall i | 0 <= i < |whole|
      ensures whole[i] == (left + right)[i]
    {
      if i >= |left| {
        assert (left + right)[i] == right[i - |left|];
      }
    }
  }

  /** The batches cover exactly the pages `from..pages`, in ascending order: none is
      lost, repeated or reordered. */
  lemma {:induction false} BatchesFromCover(from: int, pages: int, size: nat)
    requires size >= 1
    ensures Flatten(BatchesFrom(from, pages, size)) == Span(from, pages)
    decreases pages + 1 - from
  {
    if from <= pages {
      var bs := BatchesFrom(from, pages, size);
      var end := Min(from + size - 1, pages);
      assert bs[0] == Batch(from, end) && bs[1..] == BatchesFrom(from + size, pages, size);
      BatchesFromCover(from + size, pages, size);
      SpanSplit(from, end, pages);
      if end == pages {
        assert BatchesFrom(from + size, pages, size) == [];
      }
    }
  }

  /** Every batch is a non-empty range of at most `size` pages inside `from..pages`;
      each one starts right after the previous one ends; the first starts at `from`
      and the last ends at `pages`; there are none exactly when `from > pages`. */
  lemma {:induction false} BatchesFromShape(from: int, pages: int, size: nat)
    requires size >= 1
    ensures var bs := BatchesFrom(from, pages, size);
      && (bs == [] <==> from > pages)
      && (bs != [] ==> bs[0].first == from && bs[|bs| - 1].last == pages)
      && (forall i :: 0 <= i < |bs| ==>
            from <= bs[i].first <= bs[i].last <= pages && bs[i].last - bs[i].first + 1 <= size)
      && (forall i :: 0 < i < |bs| ==> bs[i].first == bs[i - 1].last + 1)
    decreases pages + 1 - from
  {
    if from <= pages {
      var bs := BatchesFrom(from, pages, size);
      var rest := BatchesFrom(from + size, pages, size);
      assert bs == [Batch(from, Min(from + size - 1, pages))] + rest;
      BatchesFromShape(from + size, pages, size);
      forall i | 0 < i < |bs|
        ensures bs[i].first == bs[i - 1].last + 1
      {
        assert bs[i] == rest[i - 1];
        if i > 1 {
          assert bs[i - 1] == rest[i - 2];
        }
      }
    }
  }

  /** The number of batches is the number of steps of the range. */
  lemma {:induction false} BatchesFromCount(from: int, pages: int, size: nat)
    requires size >= 1
    ensures |BatchesFrom(from, pages, size)| == if from > pages then 0 else (pages - from) / size + 1
    decreases pages + 1 - from
  {
    if from <= pages {
      BatchesFromCount(from + size, pages, size);
      if from + size <= pages {
        DivStep(pages - from - size, size);
      }
    }
  }

  lemma DivStep(x: nat, size: nat)
    requires size >= 1
    ensures (x + size) / size == x / size + 1
  {
    var q, r := x / size, x % size;
    assert x == q * size + r && 0 <= r < size;
    assert x + size == (q + 1) * size + r;
    DivOf(x + size, size, q + 1, r);
  }

  lemma DivOf(n: nat, size: nat, q: nat, r: nat)
    requires size >= 1 && r < size && n == q * size + r
    ensures n / size == q
  {
    var q', r' := n / size, n % size;
    assert n == q' * size + r' && r' < size;
    if q' < q {
      MulGap(q', q, size);
      assert false;
    } else if q' > q {
      MulGap(q, q', size);
      assert false;
    }
  }

  lemma {:induction false} MulGap(a: nat, b: nat, size: nat)
    requires a < b
    ensures a * size + size <= b * size
    decreases b
  {
    if b > a + 1 {
      MulGap(a, b - 1, size);
    }
    assert b * size == (b - 1) * size + size;
  }

  /** The main property of the planner: the batches partition the pages
      `1..pages` into contiguous, ascending, non-empty ranges of at most `size` pages,
      and there are `ceil(pages / size)` of them. */
  lemma BatchesPartition(pages: int, size: nat)
    requires size >= 1
    ensures var bs := Batches(pages, size);
      && Flatten(bs) == Span(1, pages)
      && (bs != [] ==> bs[0].first == 1 && bs[|bs| - 1].last == pages)
      && (forall i :: 0 <= i < |bs| ==>
            1 <= bs[i].first <= bs[i].last <= pages && bs[i].last - bs[i].first + 1 <= size)
      && (forall i :: 0 < i < |bs| ==> bs[i].first == bs[i - 1].last + 1)
      && |bs| == if pages <= 0 then 0 else (pages + size - 1) / size
  {
    var bs := Batches(pages, size);
    assert Flatten(bs) == Span(1, pages) by {
      BatchesFromCover(1, pages, size);
    }
    assert |bs| == if pages <= 0 then 0 else (pages + size - 1) / size by {
      BatchesFromCount(1, pages, size);
      if pages > 0 {
        DivStep(pages - 1, size);
      }
    }
    BatchesFromShape(1, pages, size);
  }
}
