/** The greedy batcher that cuts the pending translation items into prompts
    under two limits: a number of items and a character budget. */
module TranslationBatches {

  datatype Item = Item(cacheKey: string, key: string, text: string, textHash: string)

  const MAX_BATCH_ITEMS: nat := 20

  function EstimateBatchChars(items: seq<Item>): int {
    if items == [] then 2
    else EstimateBatchChars(items[..|items| - 1]) + |items[|items| - 1].key| + |items[|items| - 1].text| + 8
  }

  /** What the batching loop charges for a batch: every item is estimated as a
      batch of its own, so the two brackets are counted once per item. */
  function LoopChars(batch: seq<Item>): int {
    if batch == [] then 2
    else LoopChars(batch[..|batch| - 1]) + EstimateBatchChars([batch[|batch| - 1]])
  }

  predicate Fits(batch: seq<Item>, budget: real) {
    && 1 <= |batch| <= MAX_BATCH_ITEMS
    && (|batch| == 1 || LoopChars(batch) as real <= budget)
  }

  function Concat<T>(parts: seq<seq<T>>): seq<T> {
    if parts == [] then [] else parts[0] + Concat(parts[1..])
  }

  /** A cut of `items` into consecutive batches that respects both limits. */
  ghost predicate Partition(parts: seq<seq<Item>>, items: seq<Item>, budget: real) {
    && Concat(parts) == items
    && forall i | 0 <= i < |parts| :: Fits(parts[i], budget)
  }

  /** No batch could have taken the first item of its successor. */
  ghost predicate Saturated(parts: seq<seq<Item>>, budget: real) {
    forall i | 0 < i < |parts| :: Full(parts[i - 1], parts[i], budget)
  }

  ghost predicate Full(batch: seq<Item>, next: seq<Item>, budget: real) {
    next != [] && !Fits(batch + [next[0]], budget)
  }

  method BuildTranslationBatches(items: seq<Item>, budget: real) returns (batches: seq<seq<Item>>)
    ensures Partition(batches, items, budget)
    ensures forall other :: Partition(other, items, budget) ==> |batches| <= |other|
  {
    batches := [];
    var current: seq<Item> := [];
    var currentChars := 2;
    for i := 0 to |items|
      invariant currentChars == LoopChars(current)
      invariant if i == 0 then current == [] && batches == []
                else current != [] && Saturated(batches + [current], budget)
                     && Partition(batches + [current], items[..i], budget)
    {
      var item := items[i];
      var itemChars := EstimateBatchChars([item]);
      var wouldOverflow := |current| > 0 && (currentChars + itemChars) as real > budget;
      var reachedMaxItems := |current| >= MAX_BATCH_ITEMS;
      assert items[..i + 1] == items[..i] + [item];
      OneMoreItem(current, item);
      OneMoreItem([], item);
      if wouldOverflow || reachedMaxItems {
        StartBatch(batches, current, items[..i], item, budget);
        batches := batches + [current];
        current := [];
        currentChars := 2;
      } else if current != [] {
        ExtendBatch(batches, current, items[..i], item, budget);
      } else {
        ConcatSnoc([], [item]);
      }
      current := current + [item];
      currentChars := currentChars + itemChars;
    }
    assert items[..|items|] == items;
    if current != [] {
      batches := batches + [current];
    }
    forall other | Partition(other, items, budget) ensures |batches| <= |other| {
      SaturatedIsShortest(batches, other, 0, budget);
    }
  }

  lemma OneMoreItem(batch: seq<Item>, item: Item)
    ensures LoopChars(batch + [item]) == LoopChars(batch) + EstimateBatchChars([item])
  {
    assert (batch + [item])[..|batch|] == batch;
  }

  lemma ExtendBatch(parts: seq<seq<Item>>, last: seq<Item>, items: seq<Item>, item: Item, budget: real)
    requires last != [] && Saturated(parts + [last], budget) && Partition(parts + [last], items, budget)
    requires Fits(last + [item], budget)
    ensures Saturated(parts + [last + [item]], budget)
    ensures Partition(parts + [last + [item]], items + [item], budget)
  {
    var before, now := parts + [last], parts + [last + [item]];
    forall k | 0 < k < |now| ensures Full(now[k - 1], now[k], budget) {
      assert Full(before[k - 1], before[k], budget);
      assert now[k - 1] == before[k - 1] && now[k][0] == before[k][0];
    }
    forall k | 0 <= k < |now| ensures Fits(now[k], budget) {
      assert Fits(before[k], budget);
    }
    ConcatSnoc(parts, last);
    ConcatSnoc(parts, last + [item]);
  }

  lemma StartBatch(parts: seq<seq<Item>>, last: seq<Item>, items: seq<Item>, item: Item, budget: real)
    requires last != [] && Saturated(parts + [last], budget) && Partition(parts + [last], items, budget)
    requires !Fits(last + [item], budget)
    ensures Saturated(parts + [last] + [[item]], budget)
    ensures Partition(parts + [last] + [[item]], items + [item], budget)
  {
    var before, now := parts + [last], parts + [last] + [[item]];
    forall k | 0 < k < |now| ensures Full(now[k - 1], now[k], budget) {
      assert k < |before| ==> Full(before[k - 1], before[k], budget);
    }
    forall k | 0 <= k < |now| ensures Fits(now[k], budget) {
      assert k < |before| ==> Fits(before[k], budget);
    }
    ConcatSnoc(before, [item]);
  }

  lemma {:induction false} ConcatSnoc<T>(parts: seq<seq<T>>, last: seq<T>)
    ensures Concat(parts + [last]) == Concat(parts) + last
  {
    if parts == [] {
      assert parts + [last] == [last];
    } else {
      ConcatSnoc(parts[1..], last);
      assert (parts + [last])[1..] == parts[1..] + [last];
    }
  }

  lemma OneItemChars(item: Item)
    ensures EstimateBatchChars([item]) == |item.key| + |item.text| + 10
  {
    assert [item][..0] == [];
  }

  lemma {:induction false} LoopCharsMonotone(batch: seq<Item>, from: nat, to: nat)
    requires from <= to <= |batch|
    ensures LoopChars(batch[from..to]) <= LoopChars(batch)
    decreases |batch|
  {
    if batch == [] {
      assert batch[from..to] == [];
    } else {
      var init, last := batch[..|batch| - 1], batch[|batch| - 1];
      OneItemChars(last);
      if to < |batch| {
        assert batch[from..to] == init[from..to];
        LoopCharsMonotone(init, from, to);
      } else if from < |batch| {
        assert batch[from..to] == init[from..|init|] + [last];
        OneMoreItem(init[from..|init|], last);
        LoopCharsMonotone(init, from, |init|);
      } else {
        assert batch[from..to] == [] == init[..0];
        LoopCharsMonotone(init, 0, 0);
      }
    }
  }

  lemma InfixFits(batch: seq<Item>, from: nat, to: nat, budget: real)
    requires Fits(batch, budget) && from < to <= |batch|
    ensures Fits(batch[from..to], budget)
  {
    LoopCharsMonotone(batch, from, to);
  }

  /** The first batch of a saturated cut reaches at least as far as any fitting
      batch that starts no later. */
  lemma FirstBatchReaches(greedy: seq<seq<Item>>, batch: seq<Item>, skip: nat, after: seq<Item>, budget: real)
    requires greedy != [] && (forall i | 0 <= i < |greedy| :: Fits(greedy[i], budget)) && Saturated(greedy, budget)
    requires Fits(batch, budget) && skip < |batch|
    requires Concat(greedy) == batch[skip..] + after
    ensures |greedy[0]| >= |batch| - skip
  {
    var g := greedy[0];
    if |g| < |batch| - skip {
      assert Concat(greedy) == g + Concat(greedy[1..]);
      assert |greedy| > 1;
      assert Full(greedy[1 - 1], greedy[1], budget);
      var next := greedy[1][0];
      assert Concat(greedy[1..])[0] == next;
      assert (g + Concat(greedy[1..]))[..|g| + 1] == g + [next];
      assert g + [next] == batch[skip..skip + |g| + 1];
      InfixFits(batch, skip, skip + |g| + 1, budget);
      assert false;
    }
  }

  /** A saturated cut of a suffix is never longer than any cut of the whole. */
  lemma {:induction false} SaturatedIsShortest(greedy: seq<seq<Item>>, other: seq<seq<Item>>, skip: nat, budget: real)
    requires forall i | 0 <= i < |greedy| :: Fits(greedy[i], budget)
    requires forall i | 0 <= i < |other| :: Fits(other[i], budget)
    requires Saturated(greedy, budget)
    requires skip <= |Concat(other)| && Concat(greedy) == Concat(other)[skip..]
    ensures |greedy| <= |other|
    decreases |other|
  {
    if greedy == [] || other == [] {
    } else {
      var first, rest := other[0], other[1..];
      if skip >= |first| {
        assert Concat(other)[skip..] == Concat(rest)[skip - |first|..];
        SaturatedIsShortest(greedy, rest, skip - |first|, budget);
      } else {
        var left := |first| - skip;
        assert Concat(greedy) == first[skip..] + Concat(rest);
        FirstBatchReaches(greedy, first, skip, Concat(rest), budget);
        assert Concat(greedy) == greedy[0] + Concat(greedy[1..]);
        assert Concat(greedy[1..]) == Concat(greedy)[|greedy[0]|..] == Concat(rest)[|greedy[0]| - left..];
        SaturatedIsShortest(greedy[1..], rest, |greedy[0]| - left, budget);
      }
    }
  }

  ghost function AllText(items: seq<Item>): string {
    if items == [] then "" else AllText(items[..|items| - 1]) + items[|items| - 1].key + items[|items| - 1].text
  }

  /** The estimate counts the characters of keys and texts, eight more per item and two; the loop charges ten per item. */
  lemma {:induction false} ChargeExactly(items: seq<Item>)
    ensures EstimateBatchChars(items) == |AllText(items)| + 8 * |items| + 2
    ensures LoopChars(items) == |AllText(items)| + 10 * |items| + 2
  {
    if items == [] {
    } else {
      ChargeExactly(items[..|items| - 1]);
      OneItemChars(items[|items| - 1]);
    }
  }

  /** The loop's charge exceeds the documented estimate by two per item, so a
      batch within the budget is also within it by the estimate ... */
  lemma {:induction false} LoopOverestimates(batch: seq<Item>)
    ensures LoopChars(batch) == EstimateBatchChars(batch) + 2 * |batch|
  {
    if batch == [] {
    } else {
      LoopOverestimates(batch[..|batch| - 1]);
      OneItemChars(batch[|batch| - 1]);
    }
  }

  /** ... but by the estimate alone fewer batches can be enough: with a budget of 24, two items of
      three characters fit one batch by the estimate, and every cut by the loop's charge needs two. */
  lemma EstimateWouldAllowFewer()
    ensures var a := Item("", "k", "xy", ""); var b := Item("", "l", "xy", "");
            && EstimateBatchChars([a, b]) as real <= 24.0
            && forall parts :: Partition(parts, [a, b], 24.0) ==> |parts| >= 2
  {
    var a, b := Item("", "k", "xy", ""), Item("", "l", "xy", "");
    assert [a, b][..1] == [a] && [a][..0] == [];
    OneItemChars(a);
    OneItemChars(b);
    LoopOverestimates([a, b]);
    forall parts ensures Partition(parts, [a, b], 24.0) ==> |parts| >= 2 {
      if |parts| == 1 {
        OnePart(parts);
      }
    }
  }

  lemma OnePart<T>(parts: seq<seq<T>>)
    requires |parts| == 1
    ensures Concat(parts) == parts[0]
  {
    assert Concat(parts) == parts[0] + Concat(parts[1..]) && parts[1..] == [];
  }
}
