/**
 * The request-level decisions of the image-cache controller: detail, page,
 * delete and batch delete. Each handler takes its request parameters as
 * strings, the acting user's uuid (as the session check resolved it) and the
 * store, and answers with a typed outcome and the store it leaves behind.
 */
module ImageCacheController {
  import opened Options
  import opened ImageCaches
  import opened GoStrings
  import opened GoStrconv

  const UuidRequired := "uuid cannot be null"
  const UuidsRequired := "uuids cannot be null"
  /** Separator of the uuids in a batch delete request. */
  const BatchSeparator := ','

  // ---------------------------------------------------------------- detail

  /** Shows one image cache, to its owner only. */
  function Detail(uuid: string, actingUser: string, store: Store): (r: Reply<ImageCache>)
    ensures r.store == store
    ensures uuid == "" ==> r.outcome == Err(BadRequest(UuidRequired))
    ensures r.outcome.Ok? <==> uuid != "" && uuid in store && store[uuid].userUuid == actingUser
    ensures r.outcome.Ok? ==> uuid in store && r.outcome.value == store[uuid]
    ensures r.outcome == Err(NotFound) <==> uuid != "" && uuid !in store
    ensures r.outcome == Err(Unauthorized) <==> uuid != "" && uuid in store && store[uuid].userUuid != actingUser
  {
    if uuid == "" then Reply(Err(BadRequest(UuidRequired)), store)
    else
      match Lookup(store, uuid)
      case None => Reply(Err(NotFound), store)
      case Some(record) =>
        if !Owns(record, actingUser) then Reply(Err(Unauthorized), store)
        else Reply(Ok(record), store)
  }

  // ---------------------------------------------------------------- delete

  /** Look up, guard and remove one uuid: the body shared by delete and each batch item. */
  function DeleteOne(uuid: string, actingUser: string, store: Store): (r: Reply<()>)
    ensures r.outcome.Ok? <==> Admits(store, actingUser, uuid)
    ensures r.outcome.Ok? ==> r.store == store - {uuid}
    ensures r.outcome.Err? ==> r.outcome.failure == Rejection(store, uuid) && r.store == store
  {
    match Lookup(store, uuid)
    case None => Reply(Err(NotFound), store)
    case Some(record) =>
      if !Owns(record, actingUser) then Reply(Err(Unauthorized), store)
      else Reply(Ok(()), store - {uuid})
  }

  /** Deletes one image cache, on behalf of its owner only. */
  function Delete(uuid: string, actingUser: string, store: Store): (r: Reply<()>)
    ensures uuid == "" ==> r == Reply(Err(BadRequest(UuidRequired)), store)
    ensures r.outcome.Ok? <==> uuid != "" && uuid in store && store[uuid].userUuid == actingUser
    ensures r.outcome.Ok? ==> r.store.Keys == store.Keys - {uuid}
    ensures forall k :: k in r.store ==> k in store && r.store[k] == store[k]
    ensures r.outcome.Err? ==> r.store == store
    ensures r.outcome == Err(NotFound) <==> uuid != "" && uuid !in store
    ensures r.outcome == Err(Unauthorized) <==> uuid != "" && uuid in store && store[uuid].userUuid != actingUser
  {
    if uuid == "" then Reply(Err(BadRequest(UuidRequired)), store)
    else DeleteOne(uuid, actingUser, store)
  }

  /** Detail and delete apply the same guard: one reveals exactly what the other would remove. */
  lemma DetailAndDeleteAgree(uuid: string, actingUser: string, store: Store)
    ensures Detail(uuid, actingUser, store).outcome.Ok? <==> Delete(uuid, actingUser, store).outcome.Ok?
    ensures Detail(uuid, actingUser, store).outcome.Err? ==>
              Detail(uuid, actingUser, store).outcome.failure == Delete(uuid, actingUser, store).outcome.failure
  {
  }

  /** Deleting the same uuid a second time reports it missing. */
  lemma DeleteTwiceIsNotFound(uuid: string, actingUser: string, store: Store)
    requires Delete(uuid, actingUser, store).outcome.Ok?
    ensures Delete(uuid, actingUser, Delete(uuid, actingUser, store).store).outcome == Err(NotFound)
    ensures Detail(uuid, actingUser, Delete(uuid, actingUser, store).store).outcome == Err(NotFound)
  {
  }

  // ---------------------------------------------------------- batch delete

  /** The store the `i`-th item of a batch meets: every earlier item removed. */
  function StoreBefore(pieces: seq<string>, i: nat, store: Store): (s: Store)
    requires i <= |pieces|
  {
    store - Elems(pieces[..i])
  }

  /** The `i`-th item of a batch passes lookup and guard once the earlier items are gone. */
  predicate AdmittedAt(pieces: seq<string>, actingUser: string, store: Store, i: nat)
    requires i < |pieces|
  {
    Admits(StoreBefore(pieces, i, store), actingUser, pieces[i])
  }

  predicate AllAdmitted(pieces: seq<string>, actingUser: string, store: Store)
  {
    forall i :: 0 <= i < |pieces| ==> AdmittedAt(pieces, actingUser, store, i)
  }

  /** Item `k` is the first item of the batch that is not admitted. */
  predicate FirstRejectedAt(pieces: seq<string>, actingUser: string, store: Store, k: nat)
  {
    && k < |pieces|
    && (forall i :: 0 <= i < k ==> AdmittedAt(pieces, actingUser, store, i))
    && !AdmittedAt(pieces, actingUser, store, k)
  }

  /** An item is admitted exactly when it repeats no earlier item and its owner is the acting user. */
  lemma AdmittedAtMeaning(pieces: seq<string>, actingUser: string, store: Store, i: nat)
    requires i < |pieces|
    ensures AdmittedAt(pieces, actingUser, store, i)
        <==> pieces[i] !in pieces[..i] && pieces[i] in store && store[pieces[i]].userUuid == actingUser
    ensures !AdmittedAt(pieces, actingUser, store, i) ==>
              (Rejection(StoreBefore(pieces, i, store), pieces[i]) == NotFound
               <==> pieces[i] !in store || pieces[i] in pieces[..i])
  {
  }

  /** The items in order, each deleted as by a single delete, stopping at the first refusal. */
  function RunBatch(pieces: seq<string>, actingUser: string, store: Store): (r: Reply<()>)
    ensures r.store.Keys <= store.Keys
    ensures forall k :: k in r.store ==> r.store[k] == store[k]
    ensures store.Keys - r.store.Keys <= Elems(pieces)
    ensures r.outcome.Ok? ==> r.store == store - Elems(pieces)
    ensures r.outcome.Ok? ==> forall i :: 0 <= i < |pieces| ==> pieces[i] in store && Owns(store[pieces[i]], actingUser)
    decreases |pieces|
  {
    if |pieces| == 0 then Reply(Ok(()), store)
    else
      var step := DeleteOne(pieces[0], actingUser, store);
      if step.outcome.Err? then step
      else
        var rest := RunBatch(pieces[1..], actingUser, step.store);
        assert Elems(pieces) == {pieces[0]} + Elems(pieces[1..]) by {
          assert pieces == [pieces[0]] + pieces[1..];
        }
        assert forall i :: 1 <= i < |pieces| ==> pieces[i] == pieces[1..][i - 1];
        rest
  }

  /** Shifting a batch by its first item: the later items meet the same stores. */
  lemma StoreBeforeShift(pieces: seq<string>, store: Store, i: nat)
    requires 0 < |pieces| && i < |pieces|
    ensures StoreBefore(pieces, i + 1, store) == StoreBefore(pieces[1..], i, store - {pieces[0]})
  {
    assert pieces[..i + 1] == [pieces[0]] + pieces[1..][..i];
    assert Elems(pieces[..i + 1]) == {pieces[0]} + Elems(pieces[1..][..i]);
  }

  /** A batch whose every item is admitted deletes exactly its items and succeeds. */
  lemma {:induction false} RunBatchAllAdmitted(pieces: seq<string>, actingUser: string, store: Store)
    requires AllAdmitted(pieces, actingUser, store)
    ensures RunBatch(pieces, actingUser, store) == Reply(Ok(()), store - Elems(pieces))
    decreases |pieces|
  {
    if |pieces| > 0 {
      assert StoreBefore(pieces, 0, store) == store by { assert pieces[..0] == []; }
      assert AdmittedAt(pieces, actingUser, store, 0);
      var rest := pieces[1..];
      forall i | 0 <= i < |rest| ensures AdmittedAt(rest, actingUser, store - {pieces[0]}, i) {
        StoreBeforeShift(pieces, store, i);
        assert AdmittedAt(pieces, actingUser, store, i + 1);
      }
      RunBatchAllAdmitted(rest, actingUser, store - {pieces[0]});
      assert pieces == [pieces[0]] + rest;
      assert Elems(pieces) == {pieces[0]} + Elems(rest);
    }
  }

  /**
   * A batch whose first refused item is `k` deletes items `0..k-1` and
   * reports item `k`'s refusal; every item not among items `0..k-1` keeps
   * its record.
   */
  lemma {:induction false} RunBatchRejectedAt(pieces: seq<string>, actingUser: string, store: Store, k: nat)
    requires FirstRejectedAt(pieces, actingUser, store, k)
    ensures RunBatch(pieces, actingUser, store)
         == Reply(Err(Rejection(StoreBefore(pieces, k, store), pieces[k])), StoreBefore(pieces, k, store))
    decreases |pieces|
  {
    assert StoreBefore(pieces, 0, store) == store by { assert pieces[..0] == []; }
    if k > 0 {
      assert AdmittedAt(pieces, actingUser, store, 0);
      var rest, store' := pieces[1..], store - {pieces[0]};
      forall i | 0 <= i < k - 1 ensures AdmittedAt(rest, actingUser, store', i) {
        StoreBeforeShift(pieces, store, i);
        assert AdmittedAt(pieces, actingUser, store, i + 1);
      }
      StoreBeforeShift(pieces, store, k - 1);
      assert !AdmittedAt(pieces, actingUser, store, k);
      RunBatchRejectedAt(rest, actingUser, store', k - 1);
    }
  }

  /** Either every item is admitted or there is a first refused one. */
  lemma {:induction false} BatchHasFirstRejection(pieces: seq<string>, actingUser: string, store: Store)
    requires !AllAdmitted(pieces, actingUser, store)
    ensures exists k :: FirstRejectedAt(pieces, actingUser, store, k)
  {
    var k := 0;
    while AdmittedAt(pieces, actingUser, store, k)
      invariant k < |pieces|
      invariant forall i :: 0 <= i < k ==> AdmittedAt(pieces, actingUser, store, i)
      invariant exists j :: k <= j < |pieces| && !AdmittedAt(pieces, actingUser, store, j)
      decreases |pieces| - k
    {
      k := k + 1;
    }
    assert FirstRejectedAt(pieces, actingUser, store, k);
  }

  /** Deletes a comma-separated list of image caches in order, stopping at the first refusal. */
  function DeleteBatch(uuids: string, actingUser: string, store: Store): (r: Reply<()>)
    ensures uuids == "" ==> r == Reply(Err(BadRequest(UuidsRequired)), store)
    ensures r.store.Keys <= store.Keys
    ensures forall k :: k in r.store ==> r.store[k] == store[k]
    ensures uuids != "" ==> store.Keys - r.store.Keys <= Elems(Split(uuids, BatchSeparator))
  {
    if uuids == "" then Reply(Err(BadRequest(UuidsRequired)), store)
    else RunBatch(Split(uuids, BatchSeparator), actingUser, store)
  }

  /**
   * Batch delete, as the loop over the split list: a batch of admitted items
   * succeeds having removed exactly them; otherwise the first refused item `k`
   * is reported, items before it are removed, and it and the items after it
   * are left as they were.
   */
  method DeleteBatchLoop(uuids: string, actingUser: string, store: Store)
    returns (outcome: Outcome<()>, store': Store, ghost failedAt: nat)
    ensures uuids == "" ==> outcome == Err(BadRequest(UuidsRequired)) && store' == store
    ensures uuids != "" && AllAdmitted(Split(uuids, BatchSeparator), actingUser, store) ==>
              outcome == Ok(()) && store' == store - Elems(Split(uuids, BatchSeparator))
    ensures uuids != "" && !AllAdmitted(Split(uuids, BatchSeparator), actingUser, store) ==>
              && FirstRejectedAt(Split(uuids, BatchSeparator), actingUser, store, failedAt)
              && store' == store - Elems(Split(uuids, BatchSeparator)[..failedAt])
              && outcome == Err(Rejection(store', Split(uuids, BatchSeparator)[failedAt]))
    ensures uuids != "" && outcome.Err? ==>
              forall j :: failedAt <= j < |Split(uuids, BatchSeparator)| ==>
                var u := Split(uuids, BatchSeparator)[j];
                u !in Split(uuids, BatchSeparator)[..failedAt] && u in store ==> u in store' && store'[u] == store[u]
    ensures Reply(outcome, store') == DeleteBatch(uuids, actingUser, store)
  {
    failedAt := 0;
    if uuids == "" {
      return Err(BadRequest(UuidsRequired)), store, failedAt;
    }
    var pieces := Split(uuids, BatchSeparator);
    store' := store;
    var i := 0;
    assert pieces[..0] == [];
    while i < |pieces|
      invariant 0 <= i <= |pieces|
      invariant store' == StoreBefore(pieces, i, store)
      invariant forall j :: 0 <= j < i ==> AdmittedAt(pieces, actingUser, store, j)
    {
      var step := DeleteOne(pieces[i], actingUser, store');
      if step.outcome.Err? {
        failedAt := i;
        assert FirstRejectedAt(pieces, actingUser, store, i);
        RunBatchRejectedAt(pieces, actingUser, store, i);
        return step.outcome, store', failedAt;
      }
      assert pieces[..i + 1] == pieces[..i] + [pieces[i]];
      assert Elems(pieces[..i + 1]) == Elems(pieces[..i]) + {pieces[i]};
      store' := step.store;
      i := i + 1;
    }
    assert pieces[..i] == pieces;
    RunBatchAllAdmitted(pieces, actingUser, store);
    outcome := Ok(());
  }

  /** A single uuid without a comma is a batch of one, handled exactly as a single delete. */
  lemma BatchOfOneIsDelete(uuid: string, actingUser: string, store: Store)
    requires uuid != "" && BatchSeparator !in uuid
    ensures DeleteBatch(uuid, actingUser, store) == Delete(uuid, actingUser, store)
  {
    SplitWithoutSeparator(uuid, BatchSeparator);
    var step := DeleteOne(uuid, actingUser, store);
    assert [uuid][1..] == [];
    if step.outcome.Ok? {
      assert RunBatch([uuid], actingUser, store) == RunBatch([], actingUser, step.store);
    }
  }

  /** `a,b,c` with `b` owned by someone else: `a` is gone, `b` is refused, `c` stays. */
  lemma BatchStopsAtForeignRecord(a: ImageCache, b: ImageCache, c: ImageCache, actingUser: string)
    requires a.uuid == "a" && b.uuid == "b" && c.uuid == "c"
    requires a.userUuid == actingUser && b.userUuid != actingUser
    ensures DeleteBatch("a,b,c", actingUser, map["a" := a, "b" := b, "c" := c])
         == Reply(Err(Unauthorized), map["b" := b, "c" := c])
  {
    SplitJoin(["a", "b", "c"], BatchSeparator);
    assert Join(["a", "b", "c"], BatchSeparator) == "a,b,c";
    var store := map["a" := a, "b" := b, "c" := c];
    assert store - {"a"} == map["b" := b, "c" := c];
  }

  /** `a,a` on an owned `a`: the first item deletes it, the repeat reports it missing. */
  lemma BatchRepeatIsNotFound(a: ImageCache, actingUser: string)
    requires a.uuid == "a" && a.userUuid == actingUser
    ensures DeleteBatch("a,a", actingUser, map["a" := a]) == Reply(Err(NotFound), map[])
  {
    SplitJoin(["a", "a"], BatchSeparator);
    assert Join(["a", "a"], BatchSeparator) == "a,a";
    assert map["a" := a] - {"a"} == map[];
  }

  /** Every handler keeps each record under its own uuid. */
  lemma HandlersKeepStoreWellKeyed(uuid: string, actingUser: string, store: Store)
    requires WellKeyed(store)
    ensures WellKeyed(Delete(uuid, actingUser, store).store)
    ensures WellKeyed(DeleteBatch(uuid, actingUser, store).store)
    ensures WellKeyed(Detail(uuid, actingUser, store).store)
  {
  }

  // ------------------------------------------------------------------ page

  /** The raw form values the page listing reads. */
  datatype PageRequest = PageRequest(
    page: string,
    pageSize: string,
    orderCreateTime: string,
    orderUpdateTime: string,
    orderSort: string,
    userUuid: string,
    matterUuid: string,
    orderSize: string)

  /** One ordering term: a column and the requested direction, verbatim. */
  datatype OrderPair = OrderPair(key: string, value: string)

  /** The arguments the page listing hands to the store's page query. */
  datatype PageQuery = PageQuery(
    page: int,
    pageSize: int,
    userUuid: string,
    matterUuid: string,
    sortArray: seq<OrderPair>)

  const DefaultPageSize := 200

  /** The sortable columns, in the fixed precedence of the listing. */
  const SortKeys: seq<string> := ["create_time", "update_time", "sort", "size"]

  /** The request parameter that sets the direction of a sortable column. */
  function OrderParameter(request: PageRequest, key: string): string
  {
    match key
    case "create_time" => request.orderCreateTime
    case "update_time" => request.orderUpdateTime
    case "sort" => request.orderSort
    case "size" => request.orderSize
    case _ => ""
  }

  /** Builds the page query for the acting user. */
  function Page(request: PageRequest, actingUser: string): (q: PageQuery)
    ensures q.userUuid == actingUser
    ensures q.matterUuid == request.matterUuid
    ensures |q.sortArray| == |SortKeys|
    ensures forall i :: 0 <= i < |q.sortArray| ==>
              q.sortArray[i].key == SortKeys[i] && q.sortArray[i].value == OrderParameter(request, SortKeys[i])
  {
    var page := if request.page != "" then Atoi(request.page).value else 0;
    var parsedSize := Atoi(request.pageSize);
    var pageSize := if request.pageSize != "" && parsedSize.err == None then parsedSize.value else DefaultPageSize;
    PageQuery(
      page,
      pageSize,
      actingUser,
      request.matterUuid,
      [ OrderPair("create_time", request.orderCreateTime),
        OrderPair("update_time", request.orderUpdateTime),
        OrderPair("sort", request.orderSort),
        OrderPair("size", request.orderSize) ])
  }

  /** Whatever user the request names, the listing is scoped to the acting user. */
  lemma PageIgnoresRequestedUser(request: PageRequest, otherUser: string, actingUser: string)
    ensures Page(request.(userUuid := otherUser), actingUser) == Page(request, actingUser)
    ensures forall record: ImageCache ::
              Owns(record, actingUser) <==> record.userUuid == Page(request, actingUser).userUuid
  {
  }

  /**
   * The page number: 0 when absent or a short non-number, the number when it
   * is an `int`, and the nearer bound of `int` when it is a number too large
   * for one.
   */
  lemma PageNumber(request: PageRequest, actingUser: string)
    ensures request.page == "" ==> Page(request, actingUser).page == 0
    ensures IsSignedDecimal(request.page) && InInt64(SignedValue(request.page)) ==>
              Page(request, actingUser).page == SignedValue(request.page)
    ensures IsSignedDecimal(request.page) && !InInt64(SignedValue(request.page)) ==>
              Page(request, actingUser).page == (if Negative(request.page) then MinInt64 else MaxInt64)
    ensures |request.page| <= 19 && !IsSignedDecimal(request.page) ==> Page(request, actingUser).page == 0
  {
    AtoiMeaning(request.page);
    if IsSignedDecimal(request.page) && !InInt64(SignedValue(request.page)) {
      AtoiClamps(request.page);
    }
    if |request.page| <= 19 && !IsSignedDecimal(request.page) {
      AtoiShortSyntaxError(request.page);
    }
  }

  /** The page size: the given number when it is an `int`, and 200 otherwise, with no upper bound. */
  lemma PageSize(request: PageRequest, actingUser: string)
    ensures Page(request, actingUser).pageSize
         == if IsSignedDecimal(request.pageSize) && InInt64(SignedValue(request.pageSize))
            then SignedValue(request.pageSize) else DefaultPageSize
  {
    AtoiMeaning(request.pageSize);
  }

  /** The sort terms depend on the four order parameters alone, never on paging, scope or matter. */
  lemma SortArrayDependsOnOrderOnly(request: PageRequest, other: PageRequest, actingUser: string, otherUser: string)
    requires request.orderCreateTime == other.orderCreateTime && request.orderUpdateTime == other.orderUpdateTime
    requires request.orderSort == other.orderSort && request.orderSize == other.orderSize
    ensures Page(request, actingUser).sortArray == Page(other, otherUser).sortArray
  {
  }
}
