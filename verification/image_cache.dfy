/**
 * The image-cache record, the store of records keyed by uuid, the typed
 * outcomes the controller's handlers produce, and the ownership guard they
 * all share.
 */
module ImageCaches {
  import opened Options

  /** A cached rendition of one of a user's files ("matters"). */
  datatype ImageCache = ImageCache(
    uuid: string,
    userUuid: string,
    matterUuid: string,
    sort: int,
    size: int)

  /** The persistent store: every image cache, found by its uuid. */
  type Store = map<string, ImageCache>

  /** Every record sits under its own uuid. */
  predicate WellKeyed(store: Store)
  {
    forall k :: k in store ==> store[k].uuid == k
  }

  /** Why a request was refused; `Unauthorized` carries nothing about the record it refused. */
  datatype Failure = BadRequest(message: string) | Unauthorized | NotFound

  datatype Outcome<+T> = Ok(value: T) | Err(failure: Failure)

  /** What a handler answers, together with the store it leaves behind. */
  datatype Reply<+T> = Reply(outcome: Outcome<T>, store: Store)

  /** The ownership guard: the acting user may see or delete exactly the records they own. */
  predicate Owns(record: ImageCache, actingUser: string)
  {
    record.userUuid == actingUser
  }

  /**
   * The record stored under `uuid`, if any. It stands for both lookups the
   * controller makes: `ImageCacheService.Detail` in detail and
   * `ImageCacheDao.FindByUuid` in delete and batch delete.
   */
  function Lookup(store: Store, uuid: string): (found: Option<ImageCache>)
    ensures found.Some? <==> uuid in store
    ensures found.Some? ==> found.value == store[uuid]
  {
    if uuid in store then Some(store[uuid]) else None
  }

  /** The record under `uuid` exists and the acting user owns it. */
  predicate Admits(store: Store, actingUser: string, uuid: string)
  {
    uuid in store && Owns(store[uuid], actingUser)
  }

  /** The failure a guarded lookup of `uuid` reports when it does not admit the request. */
  function Rejection(store: Store, uuid: string): Failure
  {
    if uuid in store then Unauthorized else NotFound
  }

  /** The keys of a sequence of uuids. */
  function Elems(uuids: seq<string>): set<string>
  {
    set u | u in uuids
  }
}
