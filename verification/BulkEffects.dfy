/** What a bulk call accepts, reports and leaves behind, said by the entries of the request and how each item ended. */
module BulkEffects {
  import opened Basics
  import opened Text
  import BulkLimiter
  import opened BulkEngine

  /** An entry is accepted as an identifier of 8 to 128 characters, none of them used in markup or shell commands. */
  predicate StandsFor(item: Item, id: string) {
    && item.Str? && id == Strip(item.text) && 8 <= |id| <= 128
    && forall c :: c in id ==> c !in {'<', '>', '"', '\'', ';', '&', '|', '$', '`'}
  }

  /** The name of an entry in a failure: its text, or "empty" for what is false in Python. */
  function NameOf(item: Item): string {
    if item == Str("") || (item.Other? && !item.truthy) then "empty"
    else if item.Str? then item.text else item.shown
  }

  lemma AcceptableIff(item: Item)
    ensures Acceptable(item) <==> exists id :: StandsFor(item, id)
    ensures Acceptable(item) ==> StandsFor(item, Cleaned(item))
    ensures Reported(item) == NameOf(item)
  {
    hide Strip;
    if item.Str? {
      var id := Strip(item.text);
      assert forall c :: Suspicious(c) <==> c in {'<', '>', '"', '\'', ';', '&', '|', '$', '`'};
      assert Acceptable(item) <==> StandsFor(item, id);
    }
  }

  /**
   A request is refused when it is empty or has more than a thousand entries. Of any other, the valid identifiers are
   those that some entry stands for, and the invalid ones the names of the entries that stand for none.
   */
  lemma ScreenedIff(items: seq<Item>)
    ensures Screen(items) == Refused(NoItems) <==> items == []
    ensures Screen(items) == Refused(TooMany) <==> |items| > 1000
    ensures Screen(items).Screened? ==>
              && (forall id :: id in Screen(items).valid <==> exists item :: item in items && StandsFor(item, id))
              && (forall name :: name in Screen(items).invalid <==>
                    exists item :: item in items && NameOf(item) == name && forall id :: !StandsFor(item, id))
  {
    hide Strip, Acceptable, StandsFor, NameOf;
    if Screen(items).Screened? {
      DistinctKeepsEachOnce(items);
      forall id ensures id in Screen(items).valid <==> exists item :: item in items && StandsFor(item, id) {
        ValidIff(Distinct(items), id);
      }
      forall name
        ensures name in Screen(items).invalid <==>
                exists item :: item in items && NameOf(item) == name && forall id :: !StandsFor(item, id)
      {
        InvalidIff(Distinct(items), name);
      }
    }
  }

  lemma ClearedName(item: Item, id: string)
    requires StandsFor(item, id)
    ensures Acceptable(item) && Cleaned(item) == id
  {
    AcceptableIff(item);
    hide Strip, Acceptable;
  }

  lemma {:induction false} ValidIff(items: seq<Item>, id: string)
    ensures id in Valids(items) <==> exists item :: item in items && StandsFor(item, id)
  {
    hide Strip, Acceptable, StandsFor, Cleaned;
    if items != [] {
      var front, last := items[..|items| - 1], items[|items| - 1];
      assert items == front + [last];
      ValidIff(front, id);
      AcceptableIff(last);
      if StandsFor(last, id) {
        ClearedName(last, id);
        assert last in items;
      }
      if id in Valids(items) && id !in Valids(front) {
        assert last in items && StandsFor(last, id);
      }
    }
  }

  lemma {:induction false} InvalidIff(items: seq<Item>, name: string)
    ensures name in Invalids(items) <==>
            exists item :: item in items && NameOf(item) == name && forall id :: !StandsFor(item, id)
  {
    hide Strip, Acceptable, StandsFor, NameOf, Reported, Cleaned;
    if items != [] {
      var front, last := items[..|items| - 1], items[|items| - 1];
      assert items == front + [last];
      InvalidIff(front, name);
      AcceptableIff(last);
      if name in Invalids(items) && name !in Invalids(front) {
        assert last in items && NameOf(last) == name;
      }
    }
  }

  // ----- What a run leaves behind -----

  /**
   Without transactions every item that was processed leaves what it did, also the one that raised: the store is the
   fold over the processed items.
   */
  lemma {:induction false} WithoutTransactionsEverythingStays<S>(op: (S, string) -> Effect<S>, store: S,
                                                                 ids: seq<string>, continueOnError: bool)
    ensures var processed := |Effects(op, store, ids, false, continueOnError)|;
            processed <= |ids|
            && Process(op, store, ids, false, continueOnError).0 == Fold(op, store, ids[..processed])
  {
    if ids != [] {
      var next := op(store, ids[0]).store;
      WithoutTransactionsEverythingStays(op, next, ids[1..], continueOnError);
      var processed := |Effects(op, store, ids, false, continueOnError)|;
      FoldFromTheFront(op, store, ids[..processed]);
      assert ids[..processed][1..] == ids[1..][..processed - 1];
    }
  }

  /**
   With transactions the store is the fold over the processed items that were committed, also when an abort ends the
   run early.
   */
  lemma {:induction false} WithTransactionsTheCommittedStay<S>(op: (S, string) -> Effect<S>, store: S,
                                                               ids: seq<string>, continueOnError: bool)
    ensures var processed := |Effects(op, store, ids, true, continueOnError)|;
            processed <= |ids|
            && Process(op, store, ids, true, continueOnError).0 ==
               Fold(op, store, Committed(op, store, ids[..processed]))
  {
    if ids != [] {
      var effect := op(store, ids[0]);
      var next := After(store, effect, true);
      WithTransactionsTheCommittedStay(op, next, ids[1..], continueOnError);
      var processed := |Effects(op, store, ids, true, continueOnError)|;
      assert ids[..processed][1..] == ids[1..][..processed - 1];
      if !Aborts(effect, true) {
        FoldFromTheFront(op, store, Committed(op, store, ids[..processed]));
      }
    }
  }

  /** The first result of an item is the operation's own outcome, a second one is the failed commit. */
  lemma ResultsTellTheOutcome<S>(id: string, effect: Effect<S>, transactional: bool)
    ensures var results := ResultsOf(id, effect, transactional);
            && |results| == (if transactional && effect.CommitFailed? then 2 else 1)
            && results[0] == ItemResult(id, !effect.Raised? && effect.success, Said(effect.message))
            && (|results| == 2 ==> results[1] == ItemResult(id, false, Said(effect.error)))
  {
  }

  /** Every failure that is not the operation's says why: too many entries, a bad format, or the limit. */
  lemma FailuresSayWhy<S>(op: (S, string) -> Effect<S>, store: S, items: seq<Item>, verdict: BulkLimiter.Verdict,
                          transactional: bool, continueOnError: bool)
    ensures var results := Outcome(op, store, items, verdict, transactional, continueOnError).1;
            if items == [] then results == []
            else if |items| > 1000 then
              && |results| == |items|
              && forall i :: 0 <= i < |items| ==>
                   results[i] == ItemResult(if items[i].Str? then items[i].text else items[i].shown, false, TooMany)
            else
              var invalid, valid := Screen(items).invalid, Screen(items).valid;
              && |invalid| <= |results|
              && (forall i :: 0 <= i < |invalid| ==> results[i] == ItemResult(invalid[i], false, InvalidFormat))
              && (verdict != BulkLimiter.Admitted ==>
                    && |results| == |invalid| + |valid|
                    && forall i :: 0 <= i < |valid| ==>
                         results[|invalid| + i] == ItemResult(valid[i], false, LimitReached(verdict)))
  {
    hide Process, Valids, Invalids, Distinct;
  }
}
