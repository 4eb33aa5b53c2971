/** The paged generator that hands open issues or pull requests out in batches. */
module LabelBatches {
  import opened Text

  const WORK_BATCH_SIZE := 500

  datatype Node = Node(number: real, title: string, body: Option<string>, labels: Option<seq<string>>)

  datatype LabelItem = LabelItem(number: real, title: string, body: string, labels: seq<string>)

  datatype Page = Page(nodes: seq<Node>, hasNextPage: bool)

  datatype LabelItemBatch = LabelItemBatch(batchIndex: nat, items: seq<LabelItem>, fetchedCount: nat)

  /** A limit given on the command line need not be a whole number. */
  datatype Limit = Unlimited | AtMost(limit: real)

  predicate Reached(limit: Limit, count: nat) {
    limit.AtMost? && count as real >= limit.limit
  }

  function MapNodeToLabelItem(node: Node): LabelItem {
    LabelItem(node.number, node.title, if node.body.Some? then node.body.value else "",
              if node.labels.Some? then node.labels.value else [])
  }

  function ItemsOf(nodes: seq<Node>): seq<LabelItem> {
    seq(|nodes|, i requires 0 <= i < |nodes| => MapNodeToLabelItem(nodes[i]))
  }

  /** The items on the first `count` pages. A fetch that fails is `None`. */
  function Served(answers: seq<Option<Page>>, count: nat): seq<LabelItem>
    requires count <= |answers|
  {
    if count == 0 then []
    else Served(answers, count - 1) + if answers[count - 1].Some? then ItemsOf(answers[count - 1].value.nodes) else []
  }

  /** Items are served page by page. */
  lemma {:induction false} ServedConcat(answers: seq<Option<Page>>, more: seq<Option<Page>>)
    ensures Served(answers + more, |answers| + |more|) == Served(answers, |answers|) + Served(more, |more|)
  {
    if more == [] {
      assert answers + more == answers;
    } else {
      var init, last := more[..|more| - 1], more[|more| - 1];
      ServedConcat(answers, init);
      ServedSoFar(answers + more, answers + init, |answers| + |init|);
      ServedSoFar(more, init, |init|);
    }
  }

  lemma {:induction false} ServedSoFar(answers: seq<Option<Page>>, init: seq<Option<Page>>, count: nat)
    requires count <= |init| && init <= answers
    ensures Served(answers, count) == Served(init, count)
  {
    if count > 0 {
      ServedSoFar(answers, init, count - 1);
    }
  }

  /** On a page, node by node; a missing body is the empty text, and a node without labels has none. */
  lemma OnePageServed(page: Option<Page>)
    ensures page.None? ==> Served([page], 1) == []
    ensures page.Some? ==> |Served([page], 1)| == |page.value.nodes|
    ensures page.Some? ==> forall i | 0 <= i < |page.value.nodes| :: ServedAs(page.value.nodes[i], Served([page], 1)[i])
  {
    assert Served([page], 0) == [];
  }

  ghost predicate ServedAs(node: Node, item: LabelItem) {
    && item.number == node.number && item.title == node.title
    && (node.body.Some? ==> item.body == node.body.value) && (node.body.None? ==> item.body == "")
    && (node.labels.Some? ==> item.labels == node.labels.value) && (node.labels.None? ==> item.labels == [])
  }

  function Concat(batches: seq<LabelItemBatch>): seq<LabelItem> {
    if batches == [] then [] else Concat(batches[..|batches| - 1]) + batches[|batches| - 1].items
  }

  /** Every batch knows its position and how many items had been fetched when it was handed out, and is not empty or too long. */
  ghost predicate Numbered(batches: seq<LabelItemBatch>) {
    batches != [] ==>
      var last := batches[|batches| - 1];
      && Numbered(batches[..|batches| - 1])
      && last.batchIndex == |batches|
      && last.fetchedCount == |Concat(batches)|
      && 1 <= |last.items| <= WORK_BATCH_SIZE
  }

  ghost predicate AllFull(batches: seq<LabelItemBatch>) {
    forall i | 0 <= i < |batches| :: |batches[i].items| == WORK_BATCH_SIZE
  }

  /** `m` of the items are within the limit. */
  predicate Within(limit: Limit, items: seq<LabelItem>, m: nat) {
    && m <= |items|
    && (forall k: nat | k < m :: !Reached(limit, k))
    && (m == |items| || Reached(limit, m))
  }

  /** A page is asked for only after one that promised it, and never once the limit is reached. */
  ghost predicate Asked(limit: Limit, answers: seq<Option<Page>>, fetches: nat) {
    fetches > 0 ==>
      && fetches <= |answers|
      && Asked(limit, answers, fetches - 1)
      && answers[fetches - 1].Some?
      && !Reached(limit, |Served(answers, fetches - 1)|)
      && (fetches > 1 ==> answers[fetches - 2].value.hasNextPage)
  }

  /** What holds between two items: full batches hold all but the last `results` of the items so far. */
  ghost predicate Filling(limit: Limit, batches: seq<LabelItemBatch>, results: seq<LabelItem>, items: seq<LabelItem>) {
    && Numbered(batches) && AllFull(batches)
    && |results| < WORK_BATCH_SIZE && Concat(batches) + results == items
    && forall k: nat | k < |items| :: !Reached(limit, k)
  }

  lemma AppendBatch(batches: seq<LabelItemBatch>, batch: LabelItemBatch)
    requires Numbered(batches) && 1 <= |batch.items| <= WORK_BATCH_SIZE
    requires batch.batchIndex == |batches| + 1 && batch.fetchedCount == |Concat(batches) + batch.items|
    ensures Numbered(batches + [batch]) && Concat(batches + [batch]) == Concat(batches) + batch.items
  {
    assert (batches + [batch])[..|batches|] == batches;
  }

  /** Taking one item keeps the batches filled, whether or not it completes one. */
  lemma TakeItem(limit: Limit, batches: seq<LabelItemBatch>, results: seq<LabelItem>, items: seq<LabelItem>, item: LabelItem)
    requires Filling(limit, batches, results, items) && !Reached(limit, |items|)
    ensures |results| + 1 < WORK_BATCH_SIZE ==> Filling(limit, batches, results + [item], items + [item])
    ensures |results| + 1 == WORK_BATCH_SIZE
            ==> Filling(limit, batches + [LabelItemBatch(|batches| + 1, results + [item], |items| + 1)], [], items + [item])
  {
    var all := items + [item];
    assert Concat(batches) + (results + [item]) == all;
    if |results| + 1 == WORK_BATCH_SIZE {
      var batch := LabelItemBatch(|batches| + 1, results + [item], |items| + 1);
      AppendBatch(batches, batch);
      assert Concat(batches + [batch]) + [] == all;
    }
  }

  /** `i` items of the page were taken: all of them, or those before the limit was reached. */
  ghost predicate TakenUpTo(limit: Limit, nodes: seq<Node>, before: seq<LabelItem>, items: seq<LabelItem>, i: nat) {
    i <= |nodes| && items == before + ItemsOf(nodes)[..i] && (i == |nodes| || Reached(limit, |items|))
  }

  lemma PrefixOfPage(before: seq<LabelItem>, page: seq<LabelItem>, i: nat)
    requires i <= |page|
    ensures (before + page)[..|before| + i] == before + page[..i]
    ensures i == |page| ==> before + page[..i] == before + page
  {
  }

  /** What holds between two pages. */
  ghost predicate BetweenPages(limit: Limit, answers: seq<Option<Page>>, fetches: nat, more: bool, items: seq<LabelItem>) {
    && Asked(limit, answers, fetches)
    && fetches <= |answers|
    && more == (fetches > 0 ==> answers[fetches - 1].value.hasNextPage)
    && Within(limit, Served(answers, fetches), |items|)
    && items == Served(answers, fetches)[..|items|]
    && (!Reached(limit, |items|) ==> items == Served(answers, fetches))
  }

  lemma PageDone(limit: Limit, answers: seq<Option<Page>>, fetches: nat, before: seq<LabelItem>, items: seq<LabelItem>)
    requires BetweenPages(limit, answers, fetches, true, before) && !Reached(limit, |before|)
    requires fetches < |answers| && answers[fetches].Some?
    requires forall k: nat | k < |items| :: !Reached(limit, k)
    requires exists i: nat :: TakenUpTo(limit, answers[fetches].value.nodes, before, items, i)
    ensures BetweenPages(limit, answers, fetches + 1, answers[fetches].value.hasNextPage, items)
  {
    var i: nat :| TakenUpTo(limit, answers[fetches].value.nodes, before, items, i);
    var page := ItemsOf(answers[fetches].value.nodes);
    PrefixOfPage(before, page, i);
    assert Served(answers, fetches + 1) == before + page;
  }

  lemma NextOnPage(before: seq<LabelItem>, nodes: seq<Node>, i: nat)
    requires i < |nodes|
    ensures before + ItemsOf(nodes)[..i + 1] == before + ItemsOf(nodes)[..i] + [MapNodeToLabelItem(nodes[i])]
  {
  }

  /** What is handed out of the items served: all within the limit, in full batches but for the last; or, when a
      fetch failed, the full batches there were by then. */
  ghost predicate HandedOut(limit: Limit, served: seq<LabelItem>, batches: seq<LabelItemBatch>, failed: bool) {
    && Numbered(batches) && Concat(batches) <= served
    && if failed then AllFull(batches) && |served| - |Concat(batches)| < WORK_BATCH_SIZE
       else Within(limit, served, |Concat(batches)|) && (batches != [] ==> AllFull(batches[..|batches| - 1]))
  }

  lemma AllHandedOut(limit: Limit, batches: seq<LabelItemBatch>, results: seq<LabelItem>, items: seq<LabelItem>, served: seq<LabelItem>)
    requires Filling(limit, batches, results, items) && Within(limit, served, |items|) && items == served[..|items|]
    ensures items == served ==> HandedOut(limit, served, batches, true)
    ensures results == [] ==> HandedOut(limit, served, batches, false)
    ensures results != [] ==> HandedOut(limit, served, batches + [LabelItemBatch(|batches| + 1, results, |items|)], false)
  {
    assert items <= served;
    if results != [] {
      var batch := LabelItemBatch(|batches| + 1, results, |items|);
      AppendBatch(batches, batch);
      assert (batches + [batch])[..|batches|] == batches;
    }
  }

  /** Why no page is asked for any more. */
  ghost predicate Stopped(limit: Limit, answers: seq<Option<Page>>, fetches: nat, failed: bool)
    requires fetches <= |answers|
  {
    var more := fetches > 0 ==> answers[fetches - 1].Some? && answers[fetches - 1].value.hasNextPage;
    var reached := Reached(limit, |Served(answers, fetches)|);
    if failed then more && !reached && (fetches < |answers| ==> answers[fetches].None?) else !more || reached
  }

  /** The limit is reached by the items taken exactly when it is by those served. */
  lemma ReachedBoth(limit: Limit, items: seq<LabelItem>, served: seq<LabelItem>)
    requires Within(limit, served, |items|)
    requires !Reached(limit, |items|) ==> items == served
    ensures Reached(limit, |items|) <==> Reached(limit, |served|)
  {
  }

  /** Takes the items of one page, up to the limit, and hands out each batch that they fill. */
  method TakePage(limit: Limit, nodes: seq<Node>, handedOut: seq<LabelItemBatch>, left: seq<LabelItem>, fetched: nat)
    returns (batches: seq<LabelItemBatch>, results: seq<LabelItem>, fetchedCount: nat)
    requires Filling(limit, handedOut, left, Concat(handedOut) + left) && fetched == |Concat(handedOut) + left|
    ensures Filling(limit, batches, results, Concat(batches) + results) && fetchedCount == |Concat(batches) + results|
    ensures exists i: nat :: TakenUpTo(limit, nodes, Concat(handedOut) + left, Concat(batches) + results, i)
  {
    batches, results, fetchedCount := handedOut, left, fetched;
    ghost var before := Concat(handedOut) + left;
    ghost var items := before;
    var i := 0;
    while i < |nodes| && !Reached(limit, fetchedCount)
      invariant i <= |nodes| && fetchedCount == |items|
      invariant items == before + ItemsOf(nodes)[..i]
      invariant Filling(limit, batches, results, items)
    {
      var item := MapNodeToLabelItem(nodes[i]);
      NextOnPage(before, nodes, i);
      TakeItem(limit, batches, results, items, item);
      results := results + [item];
      items := items + [item];
      fetchedCount := fetchedCount + 1;
      if |results| >= WORK_BATCH_SIZE {
        batches := batches + [LabelItemBatch(|batches| + 1, results, fetchedCount)];
        results := [];
      }
      i := i + 1;
    }
    assert TakenUpTo(limit, nodes, before, items, i);
  }

  /** Hands out the batches; when a fetch fails, only what had been handed out by then. */
  method FetchOpenLabelItemBatches(limit: Limit, answers: seq<Option<Page>>)
    returns (batches: seq<LabelItemBatch>, fetches: nat, failed: bool)
    ensures fetches <= |answers| && Asked(limit, answers, fetches) && Stopped(limit, answers, fetches, failed)
    ensures HandedOut(limit, Served(answers, fetches), batches, failed)
  {
    batches, fetches, failed := [], 0, false;
    var results: seq<LabelItem> := [];
    var fetchedCount := 0;
    var more := true;
    ghost var items: seq<LabelItem> := [];
    while more && !Reached(limit, fetchedCount)
      invariant fetchedCount == |items|
      invariant BetweenPages(limit, answers, fetches, more, items)
      invariant Filling(limit, batches, results, items)
      decreases |answers| - fetches
    {
      if fetches == |answers| || answers[fetches].None? {
        AllHandedOut(limit, batches, results, items, Served(answers, fetches));
        failed := true;
        return;
      }
      var pageData := answers[fetches].value;
      ghost var before := items;
      batches, results, fetchedCount := TakePage(limit, pageData.nodes, batches, results, fetchedCount);
      items := Concat(batches) + results;
      PageDone(limit, answers, fetches, before, items);
      fetches := fetches + 1;
      more := pageData.hasNextPage;
    }
    ReachedBoth(limit, items, Served(answers, fetches));
    AllHandedOut(limit, batches, results, items, Served(answers, fetches));
    if results != [] {
      batches := batches + [LabelItemBatch(|batches| + 1, results, fetchedCount)];
    }
  }

  /** With a limit of `n` items, or a fraction below it, the first `n` items of the listing are
      handed out; without one, all of them. */
  lemma WithinLimit(limit: Limit, n: nat, items: seq<LabelItem>, m: nat)
    requires limit.AtMost? ==> n as real - 1.0 < limit.limit <= n as real
    ensures Within(limit, items, m) <==> m == if limit.AtMost? && n < |items| then n else |items|
  {
    if limit.AtMost? {
      forall k: nat ensures Reached(limit, k) <==> k >= n {
        CountReal(n, k);
      }
      assert m > 0 && Within(limit, items, m) ==> !Reached(limit, m - 1);
    }
  }

  lemma CountReal(n: nat, k: nat)
    ensures k < n ==> k as real <= n as real - 1.0
    ensures k >= n ==> k as real >= n as real
  {
  }
}
