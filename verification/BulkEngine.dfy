/**
 Bulk operations: identifiers are de-duplicated and screened, then an operation is applied to each, with a
 rollback per item when transactions are on.
 */
module BulkEngine {
  import opened Basics
  import opened Text
  import BulkLimiter

  const MAX_ITEMS := 1000
  const MIN_LENGTH := 8
  const MAX_LENGTH := 128

  /** An entry of the request: a string, or any other value with its truth value and its printed form. */
  datatype Item = Str(text: string) | Other(truthy: bool, shown: string)

  datatype Note = InvalidFormat | NoItems | TooMany | LimitReached(verdict: BulkLimiter.Verdict) | Said(message: string)

  datatype ItemResult = ItemResult(id: string, success: bool, note: Note)

  /**
   How the operation on one item ends, with the store as it leaves it: it returns, it raises, or it returns and
   the transaction around it then cannot be committed.
   */
  datatype Effect<S> =
    | Returned(store: S, success: bool, message: string)
    | Raised(store: S, message: string)
    | CommitFailed(store: S, success: bool, message: string, error: string)

  // ----- Screening -----

  predicate Suspicious(c: char) {
    c == '<' || c == '>' || c == '"' || c == '\'' || c == ';' || c == '&' || c == '|' || c == '$' || c == '`'
  }

  predicate Acceptable(item: Item) {
    item.Str? && MIN_LENGTH <= |Strip(item.text)| <= MAX_LENGTH && forall c :: c in Strip(item.text) ==> !Suspicious(c)
  }

  /** The identifier an acceptable item stands for. */
  function Cleaned(item: Item): string {
    if item.Str? then Strip(item.text) else item.shown
  }

  /** The name an unacceptable item is reported under. */
  function Reported(item: Item): string {
    match item
    case Str(text) => if text == "" then "empty" else text
    case Other(truthy, shown) => if truthy then shown else "empty"
  }

  /** First occurrences, in order. */
  function Distinct(items: seq<Item>): seq<Item> {
    if items == [] then []
    else
      var front, last := items[..|items| - 1], items[|items| - 1];
      Distinct(front) + if last in front then [] else [last]
  }

  function Valids(items: seq<Item>): seq<string> {
    if items == [] then []
    else
      var last := items[|items| - 1];
      Valids(items[..|items| - 1]) + if Acceptable(last) then [Cleaned(last)] else []
  }

  function Invalids(items: seq<Item>): seq<string> {
    if items == [] then []
    else
      var last := items[|items| - 1];
      Invalids(items[..|items| - 1]) + if Acceptable(last) then [] else [Reported(last)]
  }

  datatype Screening = Screened(valid: seq<string>, invalid: seq<string>) | Refused(why: Note)

  function Screen(items: seq<Item>): Screening {
    if items == [] then Refused(NoItems)
    else if |items| > MAX_ITEMS then Refused(TooMany)
    else Screened(Valids(Distinct(items)), Invalids(Distinct(items)))
  }

  lemma {:induction false} DistinctKeepsEachOnce(items: seq<Item>)
    ensures forall x :: x in Distinct(items) <==> x in items
    ensures forall i, j :: 0 <= i < j < |Distinct(items)| ==> Distinct(items)[i] != Distinct(items)[j]
  {
    if items != [] {
      var front := items[..|items| - 1];
      DistinctKeepsEachOnce(front);
      assert items == front + [items[|items| - 1]];
    }
  }

  /** Where an item first occurs. */
  function FirstIndex(items: seq<Item>, x: Item): (k: nat)
    requires x in items
    ensures k < |items| && items[k] == x && x !in items[..k]
  {
    if items[0] == x then 0 else FirstIndex(items[1..], x) + 1
  }

  lemma DistinctIsIn(items: seq<Item>, i: nat)
    requires i < |Distinct(items)|
    ensures Distinct(items)[i] in items
  {
    DistinctKeepsEachOnce(items);
  }

  /** De-duplication keeps the order of first occurrence. */
  lemma {:induction false} DistinctKeepsOrder(items: seq<Item>, i: nat, j: nat)
    requires i < j < |Distinct(items)|
    ensures Distinct(items)[i] in items && Distinct(items)[j] in items
    ensures FirstIndex(items, Distinct(items)[i]) < FirstIndex(items, Distinct(items)[j])
  {
    hide FirstIndex;
    DistinctIsIn(items, i);
    DistinctIsIn(items, j);
    var front, last := items[..|items| - 1], items[|items| - 1];
    assert items == front + [last];
    DistinctIsIn(front, i);
    SameFirstIndex(front, last, Distinct(front)[i]);
    if j < |Distinct(front)| {
      DistinctKeepsOrder(front, i, j);
      SameFirstIndex(front, last, Distinct(front)[j]);
    } else {
      assert forall k :: 0 <= k < |front| ==> front[k] != last;
    }
  }

  lemma {:induction false} SameFirstIndex(front: seq<Item>, last: Item, x: Item)
    requires x in front
    ensures x in front + [last] && FirstIndex(front + [last], x) == FirstIndex(front, x)
  {
    if front[0] != x {
      assert (front + [last])[1..] == front[1..] + [last];
      SameFirstIndex(front[1..], last, x);
    }
  }

  /** The positions of the acceptable, or of the unacceptable, items. */
  function Positions(items: seq<Item>, acceptable: bool): seq<nat> {
    if items == [] then []
    else
      var n := |items| - 1;
      Positions(items[..n], acceptable) + if Acceptable(items[n]) == acceptable then [n] else []
  }

  /** Each side lists its positions in increasing order. */
  lemma {:induction false} PositionsIncrease(items: seq<Item>, acceptable: bool, i: nat)
    requires i < |Positions(items, acceptable)|
    ensures Positions(items, acceptable)[i] < |items|
    ensures forall j :: i < j < |Positions(items, acceptable)| ==>
            Positions(items, acceptable)[i] < Positions(items, acceptable)[j]
  {
    hide Acceptable;
    var n := |items| - 1;
    if i < |Positions(items[..n], acceptable)| {
      PositionsIncrease(items[..n], acceptable, i);
    }
  }

  /** Every position is on exactly one side. */
  lemma {:induction false} PositionsPartition(items: seq<Item>, acceptable: bool)
    ensures forall k: nat :: k in Positions(items, acceptable) <==> k < |items| && Acceptable(items[k]) == acceptable
    ensures |Positions(items, true)| + |Positions(items, false)| == |items|
  {
    hide Acceptable;
    if items != [] {
      PositionsPartition(items[..|items| - 1], acceptable);
    }
  }

  /** The screened lists name the items at the positions of their side. */
  lemma {:induction false} ScreenedListsFollowPositions(items: seq<Item>)
    ensures var good, ids := Positions(items, true), Valids(items);
            |ids| == |good| && forall i :: 0 <= i < |good| ==>
              good[i] < |items| && Acceptable(items[good[i]]) && ids[i] == Cleaned(items[good[i]])
    ensures var bad, names := Positions(items, false), Invalids(items);
            |names| == |bad| && forall i :: 0 <= i < |bad| ==>
              bad[i] < |items| && !Acceptable(items[bad[i]]) && names[i] == Reported(items[bad[i]])
  {
    hide Reported, Strip;
    if items != [] {
      ScreenedListsFollowPositions(items[..|items| - 1]);
    }
  }

  lemma IdOf(items: seq<Item>, x: Item) returns (i: nat)
    requires x in items && Acceptable(x)
    ensures i < |Valids(items)| && Valids(items)[i] == Cleaned(x)
    ensures i < |Positions(items, true)| && Positions(items, true)[i] < |items| && items[Positions(items, true)[i]] == x
  {
    hide Acceptable, Strip;
    PositionsPartition(items, true);
    ScreenedListsFollowPositions(items);
    var k :| 0 <= k < |items| && items[k] == x;
    assert k in Positions(items, true);
    i :| 0 <= i < |Positions(items, true)| && Positions(items, true)[i] == k;
  }

  predicate HasRepeats(ids: seq<string>) {
    exists i, j :: 0 <= i < j < |ids| && ids[i] == ids[j]
  }

  /** Different acceptable items that differ only in surrounding whitespace. */
  predicate Twins(x: Item, y: Item) {
    x != y && Acceptable(x) && Acceptable(y) && Cleaned(x) == Cleaned(y)
  }

  lemma ItemOf(items: seq<Item>, i: nat, lower: nat) returns (k: nat)
    requires lower <= i < |Valids(items)|
    ensures k < |items| && Acceptable(items[k]) && Valids(items)[i] == Cleaned(items[k])
    ensures i < |Positions(items, true)| && k == Positions(items, true)[i]
    ensures lower < i ==> Positions(items, true)[lower] < k
  {
    hide Acceptable, Strip;
    ScreenedListsFollowPositions(items);
    PositionsIncrease(items, true, lower);
    k := Positions(items, true)[i];
  }

  lemma RepeatsComeFromTwins(items: seq<Item>)
    requires HasRepeats(Valids(items))
    requires forall i, j :: 0 <= i < j < |items| ==> items[i] != items[j]
    ensures exists x, y :: x in items && y in items && Twins(x, y)
  {
    hide Acceptable, Strip, Valids, Positions;
    var ids := Valids(items);
    var i, j :| 0 <= i < j < |ids| && ids[i] == ids[j];
    var k := ItemOf(items, i, i);
    var m := ItemOf(items, j, i);
    assert Twins(items[k], items[m]);
  }

  lemma TwinsRepeat(items: seq<Item>, x: Item, y: Item)
    requires x in items && y in items && Twins(x, y)
    ensures HasRepeats(Valids(items))
  {
    hide Acceptable, Strip, Valids, Positions;
    var i := IdOf(items, x);
    var j := IdOf(items, y);
    assert i != j && Valids(items)[i] == Valids(items)[j];
  }

  /** Valid identifiers repeat exactly when two different acceptable inputs differ only in surrounding whitespace. */
  lemma ValidIdsRepeatIff(items: seq<Item>)
    ensures HasRepeats(Valids(Distinct(items))) <==> exists x, y :: x in items && y in items && Twins(x, y)
  {
    hide HasRepeats, Twins, Valids, Distinct;
    DistinctKeepsEachOnce(items);
    if HasRepeats(Valids(Distinct(items))) {
      RepeatsComeFromTwins(Distinct(items));
    }
    if x, y :| x in items && y in items && Twins(x, y) {
      TwinsRepeat(Distinct(items), x, y);
    }
  }

  // ----- Executing -----

  /** An exception leaves the item's block. Without a transaction there is no commit that could fail. */
  predicate Aborts<S>(effect: Effect<S>, transactional: bool) {
    effect.Raised? || (transactional && effect.CommitFailed?)
  }

  /** The store after one item: an aborting item is rolled back when it ran in a transaction. */
  function After<S>(before: S, effect: Effect<S>, transactional: bool): S {
    if transactional && Aborts(effect, transactional) then before else effect.store
  }

  /** The results of one item. The outcome is recorded before the commit, so a failing commit adds a second one. */
  function ResultsOf<S>(id: string, effect: Effect<S>, transactional: bool): seq<ItemResult> {
    match effect
    case Returned(_, success, message) => [ItemResult(id, success, Said(message))]
    case Raised(_, message) => [ItemResult(id, false, Said(message))]
    case CommitFailed(_, success, message, error) =>
      [ItemResult(id, success, Said(message))] + if transactional then [ItemResult(id, false, Said(error))] else []
  }

  /** The final store and the results, stopping at an abort unless told to continue. */
  function Process<S>(op: (S, string) -> Effect<S>, store: S, ids: seq<string>, transactional: bool,
                      continueOnError: bool): (S, seq<ItemResult>)
  {
    if ids == [] then (store, [])
    else
      var effect := op(store, ids[0]);
      var next := After(store, effect, transactional);
      if Aborts(effect, transactional) && !continueOnError then (next, ResultsOf(ids[0], effect, transactional))
      else
        var (final, rest) := Process(op, next, ids[1..], transactional, continueOnError);
        (final, ResultsOf(ids[0], effect, transactional) + rest)
  }

  lemma ProcessNone<S>(op: (S, string) -> Effect<S>, store: S, ids: seq<string>, transactional: bool,
                       continueOnError: bool)
    ensures Process(op, store, ids[|ids|..], transactional, continueOnError) == (store, [])
  {
  }

  lemma ProcessOne<S>(op: (S, string) -> Effect<S>, store: S, ids: seq<string>, i: nat, transactional: bool,
                      continueOnError: bool)
    requires i < |ids|
    ensures var effect := op(store, ids[i]);
            var next, results := After(store, effect, transactional), ResultsOf(ids[i], effect, transactional);
            var rest := Process(op, next, ids[i + 1..], transactional, continueOnError);
            Process(op, store, ids[i..], transactional, continueOnError) ==
            if Aborts(effect, transactional) && !continueOnError then (next, results) else (rest.0, results + rest.1)
  {
    assert ids[i..][1..] == ids[i + 1..];
  }

  lemma ResultsShift(before: seq<ItemResult>, results: seq<ItemResult>, rest: seq<ItemResult>)
    ensures before + (results + rest) == (before + results) + rest
  {
  }

  /** The identifiers whose block was committed when their turn came, with a transaction per item. */
  function Committed<S>(op: (S, string) -> Effect<S>, store: S, ids: seq<string>): seq<string> {
    if ids == [] then []
    else
      var effect := op(store, ids[0]);
      if Aborts(effect, true) then Committed(op, store, ids[1..]) else [ids[0]] + Committed(op, effect.store, ids[1..])
  }

  /** The plain left fold of the operation. */
  function Fold<S>(op: (S, string) -> Effect<S>, store: S, ids: seq<string>): S {
    if ids == [] then store
    else
      var n := |ids| - 1;
      op(Fold(op, store, ids[..n]), ids[n]).store
  }

  lemma {:induction false} FoldFromTheFront<S>(op: (S, string) -> Effect<S>, store: S, ids: seq<string>)
    requires ids != []
    ensures Fold(op, store, ids) == Fold(op, op(store, ids[0]).store, ids[1..])
  {
    var n := |ids| - 1;
    if n > 0 {
      FoldFromTheFront(op, store, ids[..n]);
      assert ids[..n][1..] == ids[1..][..n - 1];
    } else {
      assert Fold(op, store, ids[..0]) == store;
    }
  }

  /**
   With a transaction per item, aborting items are skipped whole: the outcome is the left fold over the items
   that were committed.
   */
  lemma {:induction false} RaisingItemsAreSkippedWhole<S>(op: (S, string) -> Effect<S>, store: S, ids: seq<string>)
    ensures Process(op, store, ids, true, true).0 == Fold(op, store, Committed(op, store, ids))
  {
    if ids != [] {
      var effect := op(store, ids[0]);
      if Aborts(effect, true) {
        RaisingItemsAreSkippedWhole(op, store, ids[1..]);
      } else {
        RaisingItemsAreSkippedWhole(op, effect.store, ids[1..]);
        FoldFromTheFront(op, store, Committed(op, store, ids));
      }
    }
  }

  /** Run by themselves, the committed items neither raise nor fail to commit. */
  lemma {:induction false} CommittedRunsClean<S>(op: (S, string) -> Effect<S>, store: S, ids: seq<string>)
    ensures Committed(op, store, Committed(op, store, ids)) == Committed(op, store, ids)
  {
    if ids != [] {
      CommittedRunsClean(op, After(store, op(store, ids[0]), true), ids[1..]);
    }
  }

  /** Transactions make no difference to a batch in which nothing aborts. */
  lemma {:induction false} TransactionsOnlyMatterWhenRaising<S>(op: (S, string) -> Effect<S>, store: S,
                                                                ids: seq<string>, continueOnError: bool)
    requires Committed(op, store, ids) == ids
    ensures Process(op, store, ids, true, continueOnError) == Process(op, store, ids, false, continueOnError)
  {
    if ids != [] {
      var effect := op(store, ids[0]);
      CommittedIsNoLonger(op, store, ids[1..]);
      assert !Aborts(effect, true);
      assert Committed(op, store, ids)[1..] == ids[1..];
      TransactionsOnlyMatterWhenRaising(op, effect.store, ids[1..], continueOnError);
    }
  }

  lemma {:induction false} CommittedIsNoLonger<S>(op: (S, string) -> Effect<S>, store: S, ids: seq<string>)
    ensures |Committed(op, store, ids)| <= |ids|
  {
    if ids != [] {
      CommittedIsNoLonger(op, store, ids[1..]);
      CommittedIsNoLonger(op, op(store, ids[0]).store, ids[1..]);
    }
  }

  // ----- How many results -----

  /** How each processed item ended. */
  function Effects<S>(op: (S, string) -> Effect<S>, store: S, ids: seq<string>, transactional: bool,
                      continueOnError: bool): seq<Effect<S>>
  {
    if ids == [] then []
    else
      var effect := op(store, ids[0]);
      if Aborts(effect, transactional) && !continueOnError then [effect]
      else [effect] + Effects(op, After(store, effect, transactional), ids[1..], transactional, continueOnError)
  }

  function AllResults<S>(ids: seq<string>, effects: seq<Effect<S>>, transactional: bool): seq<ItemResult>
    requires |effects| <= |ids|
  {
    if effects == [] then []
    else ResultsOf(ids[0], effects[0], transactional) + AllResults(ids[1..], effects[1..], transactional)
  }

  function CommitFailures<S>(effects: seq<Effect<S>>, transactional: bool): nat {
    if effects == [] then 0
    else (if transactional && effects[0].CommitFailed? then 1 else 0) + CommitFailures(effects[1..], transactional)
  }

  /** Where the results of the `i`-th processed item begin. */
  function Offset<S>(effects: seq<Effect<S>>, i: nat, transactional: bool): nat
    requires i <= |effects|
  {
    if i == 0 then 0
    else (if transactional && effects[0].CommitFailed? then 2 else 1) + Offset(effects[1..], i - 1, transactional)
  }

  /** The results are those of the processed items in order; processing ends early only right after an abort. */
  lemma {:induction false} ResultsFollowItems<S>(op: (S, string) -> Effect<S>, store: S, ids: seq<string>,
                                                 transactional: bool, continueOnError: bool)
    ensures var effects := Effects(op, store, ids, transactional, continueOnError);
            && |effects| <= |ids| && (ids != [] ==> effects != [])
            && Process(op, store, ids, transactional, continueOnError).1 == AllResults(ids, effects, transactional)
            && (continueOnError ==> |effects| == |ids|)
            && (|effects| < |ids| ==> Aborts(effects[|effects| - 1], transactional))
  {
    if ids != [] {
      hide Aborts, After, ResultsOf;
      var effect := op(store, ids[0]);
      if Aborts(effect, transactional) && !continueOnError {
        assert AllResults(ids[1..], [effect][1..], transactional) == [];
      } else {
        var next := After(store, effect, transactional);
        ResultsFollowItems(op, next, ids[1..], transactional, continueOnError);
        var rest := Effects(op, next, ids[1..], transactional, continueOnError);
        assert ([effect] + rest)[1..] == rest;
      }
    }
  }

  /** There is one result per processed item and one more per failed commit. */
  lemma {:induction false} ResultsAreCounted<S>(ids: seq<string>, effects: seq<Effect<S>>, transactional: bool)
    requires |effects| <= |ids|
    ensures |AllResults(ids, effects, transactional)| == |effects| + CommitFailures(effects, transactional)
    ensures |AllResults(ids, effects, transactional)| == Offset(effects, |effects|, transactional)
  {
    if effects != [] {
      ResultsAreCounted(ids[1..], effects[1..], transactional);
    }
  }

  lemma {:induction false} OffsetsGrow<S>(effects: seq<Effect<S>>, i: nat, transactional: bool)
    requires i < |effects|
    ensures Offset(effects, i + 1, transactional) ==
            Offset(effects, i, transactional) + if transactional && effects[i].CommitFailed? then 2 else 1
    ensures Offset(effects, i + 1, transactional) <= Offset(effects, |effects|, transactional)
  {
    hide Offset;
    OffsetUnfolds(effects, i, transactional);
    OffsetUnfolds(effects, |effects| - 1, transactional);
    if i > 0 {
      OffsetUnfolds(effects, i - 1, transactional);
      OffsetsGrow(effects[1..], i - 1, transactional);
    } else {
      OffsetIsMonotone(effects[1..], transactional);
    }
  }

  lemma OffsetIsMonotone<S>(effects: seq<Effect<S>>, transactional: bool)
    ensures Offset(effects, 0, transactional) <= Offset(effects, |effects|, transactional)
  {
  }

  lemma ResultsUnfold<S>(ids: seq<string>, effects: seq<Effect<S>>, transactional: bool)
    requires 0 < |effects| <= |ids|
    ensures AllResults(ids, effects, transactional) ==
            ResultsOf(ids[0], effects[0], transactional) + AllResults(ids[1..], effects[1..], transactional)
  {
  }

  /** The results of each processed item stand together, from its offset on. */
  lemma {:induction false} ResultsStandTogether<S>(ids: seq<string>, effects: seq<Effect<S>>, i: nat,
      transactional: bool)
    requires i < |effects| <= |ids|
    ensures var from, own := Offset(effects, i, transactional), ResultsOf(ids[i], effects[i], transactional);
            var results := AllResults(ids, effects, transactional);
            from + |own| <= |results| && results[from..from + |own|] == own
  {
    hide AllResults, Offset, ResultsOf;
    var head, rest := ResultsOf(ids[0], effects[0], transactional), AllResults(ids[1..], effects[1..], transactional);
    ResultsUnfold(ids, effects, transactional);
    WidthOf(ids[0], effects[0], transactional);
    if i == 0 {
      OffsetUnfolds(effects, 0, transactional);
      SliceOfHead(head, rest);
    } else {
      OffsetUnfolds(effects, i - 1, transactional);
      ResultsStandTogether(ids[1..], effects[1..], i - 1, transactional);
      var from, own := Offset(effects[1..], i - 1, transactional), ResultsOf(ids[i], effects[i], transactional);
      SliceOfTail(head, rest, from, from + |own|, own);
    }
  }

  /** Each processed item has exactly one result unless its commit failed, and then it has two. */
  lemma OneResultIffCommitHolds<S>(ids: seq<string>, effects: seq<Effect<S>>, i: nat, transactional: bool)
    requires i < |effects| <= |ids|
    ensures var from, until := Offset(effects, i, transactional), Offset(effects, i + 1, transactional);
            var results := AllResults(ids, effects, transactional);
            && from < until <= |results| && results[from..until] == ResultsOf(ids[i], effects[i], transactional)
            && (until == from + 1 <==> !(transactional && effects[i].CommitFailed?))
  {
    hide AllResults, Offset, ResultsOf;
    OffsetsGrow(effects, i, transactional);
    WidthOf(ids[i], effects[i], transactional);
    ResultsStandTogether(ids, effects, i, transactional);
  }

  lemma WidthOf<S>(id: string, effect: Effect<S>, transactional: bool)
    ensures |ResultsOf(id, effect, transactional)| == if transactional && effect.CommitFailed? then 2 else 1
  {
  }

  lemma OffsetUnfolds<S>(effects: seq<Effect<S>>, i: nat, transactional: bool)
    requires i < |effects|
    ensures Offset(effects, 0, transactional) == 0 && Offset(effects[1..], 0, transactional) == 0
    ensures Offset(effects, i + 1, transactional) ==
            (if transactional && effects[0].CommitFailed? then 2 else 1) + Offset(effects[1..], i, transactional)
  {
  }

  lemma SliceOfHead(own: seq<ItemResult>, rest: seq<ItemResult>)
    ensures (own + rest)[0..|own|] == own
  {
  }

  lemma SliceOfTail(own: seq<ItemResult>, rest: seq<ItemResult>, from: nat, until: nat, slice: seq<ItemResult>)
    requires from <= until <= |rest| && rest[from..until] == slice
    ensures (own + rest)[|own| + from..|own| + until] == slice
  {
  }

  /** Items the operation reported as successes and whose store change was kept. */
  function Kept<S>(effects: seq<Effect<S>>, transactional: bool): nat {
    if effects == [] then 0
    else
      (if !Aborts(effects[0], transactional) && effects[0].success then 1 else 0) + Kept(effects[1..], transactional)
  }

  /** Items the operation reported as successes and whose commit failed. */
  function Undone<S>(effects: seq<Effect<S>>, transactional: bool): nat {
    if effects == [] then 0
    else
      (if transactional && effects[0].CommitFailed? && effects[0].success then 1 else 0)
      + Undone(effects[1..], transactional)
  }

  // ----- The response -----

  function Successes(results: seq<ItemResult>): nat {
    if results == [] then 0 else Successes(results[..|results| - 1]) + if results[|results| - 1].success then 1 else 0
  }

  function AllFailed(ids: seq<string>, note: Note): seq<ItemResult> {
    seq(|ids|, i requires 0 <= i < |ids| => ItemResult(ids[i], false, note))
  }

  lemma {:induction false} AllFailedHasNoSuccess(ids: seq<string>, note: Note)
    ensures Successes(AllFailed(ids, note)) == 0
  {
    if ids != [] {
      AllFailedHasNoSuccess(ids[..|ids| - 1], note);
      assert AllFailed(ids, note)[..|ids| - 1] == AllFailed(ids[..|ids| - 1], note);
    }
  }

  class Response {
    var results: seq<ItemResult>
    var successCount: nat
    var failureCount: nat
    var totalCount: nat

    constructor ()
      ensures Valid() && results == []
    {
      results, successCount, failureCount, totalCount := [], 0, 0, 0;
    }

    /** The total is the number of results and splits into successes and failures. */
    ghost predicate Valid()
      reads this
    {
      totalCount == |results| && successCount == Successes(results) && totalCount == successCount + failureCount
    }

    method AddResult(result: ItemResult)
      requires Valid()
      modifies this
      ensures Valid() && results == old(results) + [result]
    {
      results := results + [result];
      totalCount := totalCount + 1;
      if result.success {
        successCount := successCount + 1;
      } else {
        failureCount := failureCount + 1;
      }
    }

    method AddFailures(ids: seq<string>, note: Note)
      requires Valid()
      modifies this
      ensures Valid() && results == old(results) + AllFailed(ids, note)
    {
      for i := 0 to |ids|
        invariant Valid() && results == old(results) + AllFailed(ids, note)[..i]
      {
        AddResult(ItemResult(ids[i], false, note));
      }
    }
  }

  lemma DistinctExtends(items: seq<Item>, x: Item)
    ensures Distinct(items + [x]) == Distinct(items) + if x in items then [] else [x]
  {
    assert (items + [x])[..|items|] == items;
  }

  lemma ListsExtend(items: seq<Item>, x: Item)
    ensures Valids(items + [x]) == Valids(items) + if Acceptable(x) then [Cleaned(x)] else []
    ensures Invalids(items + [x]) == Invalids(items) + if Acceptable(x) then [] else [Reported(x)]
  {
    hide Acceptable, Strip;
    assert (items + [x])[..|items|] == items;
  }

  method ValidateItemIds(items: seq<Item>) returns (screening: Screening)
    ensures screening == Screen(items)
  {
    if items == [] {
      return Refused(NoItems);
    }
    if |items| > MAX_ITEMS {
      return Refused(TooMany);
    }
    var seen: set<Item> := {};
    var unique: seq<Item> := [];
    assert Distinct(items[..0]) == [];
    assert forall u: seq<Item> {:trigger u[..0]} :: Valids(u[..0]) == [] && Invalids(u[..0]) == [];
    hide Distinct, Valids, Invalids, Strip, Suspicious;
    for i := 0 to |items|
      invariant seen == set x | x in items[..i]
      invariant unique == Distinct(items[..i])
    {
      assert items[..i + 1] == items[..i] + [items[i]];
      DistinctExtends(items[..i], items[i]);
      if items[i] !in seen {
        seen := seen + {items[i]};
        unique := unique + [items[i]];
      }
    }
    assert items[..|items|] == items;
    var valid: seq<string>, invalid: seq<string> := [], [];
    for i := 0 to |unique|
      invariant valid == Valids(unique[..i]) && invalid == Invalids(unique[..i])
    {
      assert unique[..i + 1] == unique[..i] + [unique[i]];
      ListsExtend(unique[..i], unique[i]);
      var item := unique[i];
      if item.Str? && item.text != "" {
        var cleaned := Strip(item.text);
        var suspicious := HasSuspicious(cleaned);
        if |cleaned| < MIN_LENGTH || |cleaned| > MAX_LENGTH || suspicious {
          invalid := invalid + [item.text];
        } else {
          valid := valid + [cleaned];
        }
      } else {
        invalid := invalid + [Reported(item)];
      }
    }
    assert unique[..|unique|] == unique;
    return Screened(valid, invalid);
  }

  method HasSuspicious(text: string) returns (found: bool)
    ensures found <==> exists c :: c in text && Suspicious(c)
  {
    for i := 0 to |text|
      invariant forall k :: 0 <= k < i ==> !Suspicious(text[k])
    {
      if Suspicious(text[i]) {
        return true;
      }
    }
    return false;
  }

  // ----- A whole bulk operation -----

  function Shown(items: seq<Item>): seq<string> {
    seq(|items|, i requires 0 <= i < |items| => if items[i].Str? then items[i].text else items[i].shown)
  }

  /** The final store and all results of one call, given what the limiter says about the valid identifiers. */
  function Outcome<S>(op: (S, string) -> Effect<S>, store: S, items: seq<Item>, verdict: BulkLimiter.Verdict,
                      transactional: bool, continueOnError: bool): (S, seq<ItemResult>)
  {
    match Screen(items)
    case Refused(why) => (store, AllFailed(Shown(items), why))
    case Screened(valid, invalid) =>
      var rejected := AllFailed(invalid, InvalidFormat);
      if valid == [] then (store, rejected)
      else if verdict != BulkLimiter.Admitted then (store, rejected + AllFailed(valid, LimitReached(verdict)))
      else
        var (final, results) := Process(op, store, valid, transactional, continueOnError);
        (final, rejected + results)
  }

  lemma NothingProcessed<S>(op: (S, string) -> Effect<S>, store: S, transactional: bool, continueOnError: bool)
    ensures Effects(op, store, [], transactional, continueOnError) == []
    ensures Kept<S>([], transactional) == 0 && Undone<S>([], transactional) == 0
    ensures CommitFailures<S>([], transactional) == 0
    ensures Successes([]) == 0
  {
  }

  /**
   A refused request fails every entry, repeats included, and a limited one every distinct entry. A run of the
   operation gives each distinct entry one result and each failed commit one more, unless an abort ended it.
   */
  lemma OneResultPerEntry<S>(op: (S, string) -> Effect<S>, store: S, items: seq<Item>, verdict: BulkLimiter.Verdict,
                             transactional: bool, continueOnError: bool)
    ensures var results := Outcome(op, store, items, verdict, transactional, continueOnError).1;
            if Screen(items).Refused? then |results| == |items|
            else
              var valid, invalid := Screen(items).valid, Screen(items).invalid;
              var effects := Effects(op, store, valid, transactional, continueOnError);
              && |valid| + |invalid| == |Distinct(items)| && |effects| <= |valid|
              && (verdict != BulkLimiter.Admitted ==> |results| == |Distinct(items)|)
              && (verdict == BulkLimiter.Admitted ==>
                    |results| == |invalid| + |effects| + CommitFailures(effects, transactional))
              && (continueOnError ==> |effects| == |valid|)
              && (|effects| < |valid| ==> effects != [] && Aborts(effects[|effects| - 1], transactional))
  {
    hide Valids, Invalids, Distinct, Process, Positions, Acceptable, Effects, AllResults, CommitFailures, Offset;
    if Screen(items).Screened? {
      var unique := Distinct(items);
      var valid := Valids(unique);
      PositionsPartition(unique, true);
      ScreenedListsFollowPositions(unique);
      ResultsFollowItems(op, store, valid, transactional, continueOnError);
      ResultsAreCounted(valid, Effects(op, store, valid, transactional, continueOnError), transactional);
      NothingProcessed(op, store, transactional, continueOnError);
    }
  }

  lemma {:induction false} SuccessesAdd(a: seq<ItemResult>, b: seq<ItemResult>)
    ensures Successes(a + b) == Successes(a) + Successes(b)
  {
    if b == [] {
      assert a + b == a;
    } else {
      SuccessesAdd(a, b[..|b| - 1]);
      assert (a + b)[..|a + b| - 1] == a + b[..|b| - 1];
    }
  }

  lemma {:induction false} SuccessesOfEffects<S>(ids: seq<string>, effects: seq<Effect<S>>, transactional: bool)
    requires |effects| <= |ids|
    ensures Successes(AllResults(ids, effects, transactional)) ==
            Kept(effects, transactional) + Undone(effects, transactional)
  {
    if effects != [] {
      SuccessesOfEffects(ids[1..], effects[1..], transactional);
      SuccessesAdd(ResultsOf(ids[0], effects[0], transactional), AllResults(ids[1..], effects[1..], transactional));
      SuccessesOfOne(ids[0], effects[0], transactional);
    }
  }

  lemma SuccessesOfOne<S>(id: string, effect: Effect<S>, transactional: bool)
    ensures Successes(ResultsOf(id, effect, transactional)) == if !effect.Raised? && effect.success then 1 else 0
  {
    var results := ResultsOf(id, effect, transactional);
    assert [results[0]][..0] == [];
    if |results| == 2 {
      assert [results[1]][..0] == [];
      SuccessesAdd([results[0]], [results[1]]);
    }
  }

  /**
   A refused or limited call succeeds nowhere and leaves the store alone. A run counts the successes that were
   kept and, besides, those whose commit failed.
   */
  lemma SuccessesAreTheOperations<S>(op: (S, string) -> Effect<S>, store: S, items: seq<Item>,
                                     verdict: BulkLimiter.Verdict, transactional: bool, continueOnError: bool)
    ensures var (final, results) := Outcome(op, store, items, verdict, transactional, continueOnError);
            if Screen(items).Refused? || verdict != BulkLimiter.Admitted then final == store && Successes(results) == 0
            else
              var effects := Effects(op, store, Screen(items).valid, transactional, continueOnError);
              Successes(results) == Kept(effects, transactional) + Undone(effects, transactional)
  {
    hide Valids, Invalids, Distinct, Process, Effects, AllResults, Kept, Undone, Successes, AllFailed;
    match Screen(items)
    case Refused(why) => AllFailedHasNoSuccess(Shown(items), why);
    case Screened(valid, invalid) =>
      AllFailedHasNoSuccess(invalid, InvalidFormat);
      if verdict != BulkLimiter.Admitted {
        AllFailedHasNoSuccess(valid, LimitReached(verdict));
        SuccessesAdd(AllFailed(invalid, InvalidFormat), AllFailed(valid, LimitReached(verdict)));
      } else {
        var effects := Effects(op, store, valid, transactional, continueOnError);
        ResultsFollowItems(op, store, valid, transactional, continueOnError);
        SuccessesOfEffects(valid, effects, transactional);
        SuccessesAdd(AllFailed(invalid, InvalidFormat), AllResults(valid, effects, transactional));
      }
      if valid == [] {
        NothingProcessed(op, store, transactional, continueOnError);
      }
  }

  /** An item whose operation succeeds and whose commit fails: rolled back, counted as a success and as a failure. */
  lemma RolledBackItemIsCountedAsSuccess(store: int, id: string, continueOnError: bool)
    ensures var op := (s: int, i: string) => CommitFailed(s + 1, true, "deleted", "foreign key");
            var (final, results) := Process(op, store, [id], true, continueOnError);
            && final == store
            && results == [ItemResult(id, true, Said("deleted")), ItemResult(id, false, Said("foreign key"))]
            && Successes(results) == 1 && |results| - Successes(results) == 1
  {
    var op := (s: int, i: string) => CommitFailed(s + 1, true, "deleted", "foreign key");
    ProcessNone(op, store, [id], true, continueOnError);
    ProcessOne(op, store, [id], 0, true, continueOnError);
    assert [id][0..] == [id] && [id][1..] == [];
    SuccessesOfOne(id, op(store, id), true);
  }

  /**
   With transactions and continue-on-error the store is left as the fold over the committed identifiers of an
   admitted request, and untouched otherwise.
   */
  lemma StoreIsTheFoldOfCommitted<S>(op: (S, string) -> Effect<S>, store: S, items: seq<Item>,
      verdict: BulkLimiter.Verdict)
    ensures Outcome(op, store, items, verdict, true, true).0 ==
            if Screen(items).Screened? && verdict == BulkLimiter.Admitted
            then Fold(op, store, Committed(op, store, Screen(items).valid)) else store
  {
    if Screen(items).Screened? {
      RaisingItemsAreSkippedWhole(op, store, Screen(items).valid);
    }
  }

  class Engine<S> {
    var store: S
    const operation: (S, string) -> Effect<S>
    const limiter: BulkLimiter.Limiter

    constructor (operation: (S, string) -> Effect<S>, store: S, limiter: BulkLimiter.Limiter)
      ensures this.operation == operation && this.store == store && this.limiter == limiter
    {
      this.operation, this.store, this.limiter := operation, store, limiter;
    }

    /** One item, inside its own transaction when asked for; the outcome is recorded before the commit. */
    method ApplyOne(id: string, transactional: bool, response: Response) returns (aborted: bool)
      requires response.Valid()
      modifies this`store, response
      ensures response.Valid()
      ensures var effect := operation(old(store), id);
              && aborted == Aborts(effect, transactional) && store == After(old(store), effect, transactional)
              && response.results == old(response.results) + ResultsOf(id, effect, transactional)
    {
      var effect := operation(store, id);
      aborted := Aborts(effect, transactional);
      var error := "";
      if effect.Raised? {
        error := effect.message;
      } else {
        response.AddResult(ItemResult(id, effect.success, Said(effect.message)));
        if aborted {
          error := effect.error;
        }
      }
      if !(transactional && aborted) {
        store := effect.store;
      }
      if aborted {
        response.AddResult(ItemResult(id, false, Said(error)));
      }
    }

    /** Applies the operation item by item, recording a result each time. */
    method ApplyToAll(ids: seq<string>, transactional: bool, continueOnError: bool, response: Response)
      requires response.Valid()
      modifies this`store, response
      ensures response.Valid()
      ensures (store, response.results) ==
              var (final, results) := Process(operation, old(store), ids, transactional, continueOnError);
              (final, old(response.results) + results)
    {
      ghost var all := Process(operation, store, ids, transactional, continueOnError);
      ghost var before := response.results;
      var i := 0;
      hide Process, Successes, After, ResultsOf, Aborts;
      while i < |ids|
        invariant 0 <= i <= |ids| && response.Valid()
        invariant var rest := Process(operation, store, ids[i..], transactional, continueOnError);
                  rest.0 == all.0 && response.results + rest.1 == before + all.1
      {
        ProcessOne(operation, store, ids, i, transactional, continueOnError);
        ghost var own := ResultsOf(ids[i], operation(store, ids[i]), transactional);
        ghost var next := After(store, operation(store, ids[i]), transactional);
        ResultsShift(response.results, own, Process(operation, next, ids[i + 1..], transactional, continueOnError).1);
        var aborted := ApplyOne(ids[i], transactional, response);
        if aborted && !continueOnError {
          return;
        }
        i := i + 1;
      }
      ProcessNone(operation, store, ids, transactional, continueOnError);
      assert response.results + [] == response.results;
    }

    method Execute(items: seq<Item>, name: string, user: Option<int>, perMinute: int, perHour: int,
                   transactional: bool, continueOnError: bool, now: Time) returns (response: Response)
      requires limiter.Valid() && limiter.clock <= now
      modifies this`store, limiter, limiter.cache
      ensures response.Valid() && fresh(response) && limiter.Valid()
      ensures var count := if Screen(items).Screened? then |Screen(items).valid| else 0;
              var limited := user.Some? && user.value != 0;
              var verdict :=
                if limited then BulkLimiter.Decide(old(limiter.log), user.value, name, count, perMinute, perHour, now)
                else BulkLimiter.Admitted;
              && (store, response.results) ==
                 Outcome(operation, old(store), items, verdict, transactional, continueOnError)
              && limiter.log == old(limiter.log) +
                 if limited && count > 0 && verdict == BulkLimiter.Admitted
                 then [BulkLimiter.Batch(user.value, name, count, now, perMinute, perHour)]
                 else []
    {
      hide Process, AllFailed, Valids, Invalids, Distinct, Successes, BulkLimiter.Decide;
      response := new Response();
      var screening := ValidateItemIds(items);
      if screening.Refused? {
        response.AddFailures(Shown(items), screening.why);
        assert response.results == AllFailed(Shown(items), screening.why);
        return;
      }
      response.AddFailures(screening.invalid, InvalidFormat);
      assert response.results == AllFailed(screening.invalid, InvalidFormat);
      if screening.valid == [] {
        return;
      }
      if user.Some? && user.value != 0 {
        var verdict := limiter.CheckRateLimit(user.value, name, |screening.valid|, perMinute, perHour, now);
        if verdict != BulkLimiter.Admitted {
          response.AddFailures(screening.valid, LimitReached(verdict));
          return;
        }
      }
      ApplyToAll(screening.valid, transactional, continueOnError, response);
    }
  }
}
