# Image-cache controller, modelled in Dafny

This project models the request-level decision logic of the image-cache
controller of the tank file server (`code/rest/image_cache_controller.go`).
An image cache is a cached rendition of a user's file (a "matter"). The
controller exposes four handlers:

- **detail** shows one image cache.
- **page** lists the acting user's image caches.
- **delete** removes one image cache.
- **delete/batch** removes a comma-separated list of image caches.

Every handler that reveals or removes a record first checks that the record's
`UserUuid` equals the acting user's uuid.

The store is a map from uuid to `ImageCache{uuid, userUuid, matterUuid, sort, size}`.
The acting user's uuid is a parameter, standing for what the session check
(`checkUser`) resolves. Each handler is a pure function. It answers with a typed
outcome (`Ok`, `BadRequest`, `Unauthorized`, `NotFound`) and the store it
leaves behind. The Go code signals failures with `panic`; here they are
`Err` outcomes.

Files:

- `image_cache.dfy` (module `ImageCaches`): the record, the store, the outcomes, the ownership guard `Owns`, and `Lookup`.
- `image_cache_controller.dfy` (module `ImageCacheController`): the four handlers and their properties.
- `go_strings.dfy` (module `GoStrings`): `strings.Split` on a one-character separator, with `Join`.
- `go_strconv.dfy` (module `GoStrconv`): `strconv.Atoi` for a 64-bit `int`, with its syntax and range errors.
- `options.dfy` (module `Options`): `Option`.

The model follows the code on these points, where a reader might expect otherwise:

- The guard is `record.UserUuid == user.Uuid` (lines 61, 135, 161). An empty owner uuid is not treated specially.
- An empty piece of a batch (from `",a"` or `"a,,b"`) is not rejected up front. It is looked up as the uuid `""`, like any other piece.
- `page` is not always 0 on a parse failure. The code ignores Atoi's error (`page, _ = strconv.Atoi(pageStr)`), and Atoi returns 0 on a syntax error but the nearer bound of `int` on a range error. So a page number too large for `int` becomes `MaxInt64` (or `MinInt64`). `pageSize` falls back to 200 on any error.
- `pageSize` has no upper bound.

A lookup miss is modelled as an explicit `NotFound` that leaves the store
unchanged. This is an assumption. Detail looks the record up through
`ImageCacheService.Detail` (line 57); delete and batch delete use
`ImageCacheDao.FindByUuid` (lines 131 and 157). Neither is part of this model,
and the controller reads the owner of whatever they return.

## Model

| member | source | states |
|---|---|---|
| ImageCacheController.Detail | code/rest/image_cache_controller.go:50-67 | the store is never changed. An empty uuid is a bad request. A missing uuid is NotFound. The record is returned if and only if the acting user owns it; otherwise the answer is Unauthorized, which carries no field of the record |
| ImageCacheController.DeleteOne | code/rest/image_cache_controller.go:131-140 | one guarded deletion succeeds exactly when the record exists and is owned, and then removes just that uuid. Otherwise it reports NotFound or Unauthorized and leaves the store as it was |
| ImageCacheController.Delete | code/rest/image_cache_controller.go:124-143 | an empty uuid is a bad request and changes nothing. Success happens exactly when the record exists and is owned; then exactly that key is removed and every other entry is unchanged. Unauthorized and NotFound leave the store as it was |
| ImageCacheController.DetailAndDeleteAgree | code/rest/image_cache_controller.go:57-63 | detail and delete apply the same guard: detail reveals a record exactly when delete would remove it, and both fail in the same way otherwise (for a missing uuid, under the one-`Lookup` assumption listed below) |
| ImageCacheController.DeleteTwiceIsNotFound | code/rest/image_cache_controller.go:131-140 | after a successful delete, deleting or showing the same uuid again reports NotFound |
| ImageCacheController.AdmittedAtMeaning | code/rest/image_cache_controller.go:157-163 | a batch item passes exactly when it repeats no earlier item and the acting user owns it. A refused item is NotFound exactly when it is missing from the store or repeats an earlier item |
| ImageCacheController.RunBatch | code/rest/image_cache_controller.go:155-167 | the batch loop only ever removes entries, only entries named in the batch, and never alters a surviving entry. On success every item was an owned record and all items are removed |
| ImageCacheController.RunBatchAllAdmitted | code/rest/image_cache_controller.go:155-169 | when every item passes, the batch succeeds and the new store is the old one minus exactly the batch's uuids |
| ImageCacheController.RunBatchRejectedAt | code/rest/image_cache_controller.go:155-165 | when item k is the first refused one, items 0..k-1 are removed, every item not among items 0..k-1 keeps its record, and item k's refusal is reported |
| ImageCacheController.BatchHasFirstRejection | code/rest/image_cache_controller.go:155-163 | a batch in which not every item passes has a first refused item, so one of the two cases above always applies |
| ImageCacheController.DeleteBatch | code/rest/image_cache_controller.go:146-170 | an empty list is a bad request and changes nothing. Otherwise the store only loses entries, only entries named in the list, and surviving entries keep their values |
| ImageCacheController.DeleteBatchLoop | code/rest/image_cache_controller.go:148-169 | the Go loop: an empty list is a bad request. If every item passes, exactly the items are removed and the result is Ok. Otherwise, at the first refused item k, the prefix before k is removed, the failure is reported, and every later item not already removed keeps its record. The result equals `DeleteBatch` |
| ImageCacheController.BatchOfOneIsDelete | code/rest/image_cache_controller.go:148-165 | a batch holding one comma-free uuid behaves exactly like a single delete of it |
| ImageCacheController.BatchStopsAtForeignRecord | code/rest/image_cache_controller.go:155-165 | for `a,b,c` where `b` belongs to another user: `a` is deleted, the answer is Unauthorized, and `b` and `c` remain |
| ImageCacheController.BatchRepeatIsNotFound | code/rest/image_cache_controller.go:155-165 | for `a,a` on an owned `a`: the first item deletes it, and the repeat reports NotFound with `a` gone |
| ImageCacheController.HandlersKeepStoreWellKeyed | code/rest/image_cache_controller.go:140 | detail, delete and batch delete keep every record under its own uuid |
| ImageCacheController.Page | code/rest/image_cache_controller.go:70-121 | the query is scoped to the acting user and passes the matter uuid through. The sort array has exactly four pairs, keyed in the fixed order `create_time`, `update_time`, `sort`, `size`, and each value is that key's raw order parameter |
| ImageCacheController.PageIgnoresRequestedUser | code/rest/image_cache_controller.go:78-83 | the `userUuid` request parameter has no effect on the query. The query's user scope admits exactly the records the ownership guard admits |
| ImageCacheController.PageNumber | code/rest/image_cache_controller.go:85-88 | the page is 0 when absent, and the number when it is a signed decimal that fits `int`. It is the nearer bound of `int` for a larger decimal, and 0 for any short non-number |
| ImageCacheController.PageSize | code/rest/image_cache_controller.go:90-96 | the page size is the given number exactly when it is a signed decimal that fits `int`, and 200 otherwise, with no clamp |
| ImageCacheController.SortArrayDependsOnOrderOnly | code/rest/image_cache_controller.go:98-116 | the sort array depends on the four order parameters alone: paging, matter, requested user and acting user do not change it |
| GoStrings.Split | code/rest/image_cache_controller.go:153 | splitting keeps empty pieces; no piece contains the separator, and there is one more piece than there are separators |
| GoStrings.JoinSplit | code/rest/image_cache_controller.go:153 | joining the pieces with commas gives back the original list string |
| GoStrings.SplitJoin | code/rest/image_cache_controller.go:153 | splitting a comma-join of comma-free pieces gives back the pieces |
| GoStrconv.ParseDigits | code/rest/image_cache_controller.go:92 | the digit loop's result fits 64 bits. A syntax error yields 0 and a range error yields the 64-bit maximum |
| GoStrconv.ParseDigitsMeaning | code/rest/image_cache_controller.go:92 | the digit loop accepts exactly the digit strings whose value fits 64 bits, returns that value, and reports a range error for digit strings that do not fit |
| GoStrconv.Atoi | code/rest/image_cache_controller.go:87 | the result always fits `int`. A syntax error yields 0 and a range error yields one of the two bounds |
| GoStrconv.AtoiMeaning | code/rest/image_cache_controller.go:92-95 | Atoi succeeds exactly on an optional sign followed by digits whose value fits `int`, and then returns that value |
| GoStrconv.AtoiClamps | code/rest/image_cache_controller.go:87 | a signed decimal outside `int` is a range error whose value is `MinInt64` for a negative input and `MaxInt64` otherwise |
| GoStrconv.AtoiShortSyntaxError | code/rest/image_cache_controller.go:87 | any input of at most 19 characters that is not a signed decimal is a syntax error with value 0 |

## Left out

- `Init` (bean wiring) and `RegisterRoutes` (route table, `Wrap`, role gating): framework plumbing with no decision logic.
- Request parsing (`FormValue`) and the JSON success payloads: inputs are plain strings, and outputs are the `Outcome` datatype. The success message texts are not modelled.
- The text of the Unauthorized errors is not modelled. Only the bad-request messages are kept.
- Session validation in `checkUser`: the acting user's uuid is a parameter. The batch loop calls it once per item, and each call yields the same user.
- The store's own code (`ImageCacheDao`, `ImageCacheService.Detail`) is not part of this model. This covers `FindByUuid`, how `Delete` removes the record and its file on disk, and how `Page` runs the query (filters, SQL ordering, pagination arithmetic). The page handler is modelled up to the query arguments it builds.
- Lookup of a missing uuid is an assumed `NotFound` with the store unchanged. The controller itself reads the owner of whatever `ImageCacheService.Detail` (detail) or `ImageCacheDao.FindByUuid` (delete, batch delete) returns.
- Both lookups are modelled by one exact-key `Lookup`, and a miss is `NotFound` for both. ImageCacheController.DetailAndDeleteAgree's agreement on `NotFound` rests on this; the two calls' own behaviour on a missing uuid is not modelled.
- The Go `panic` mechanism: failures are typed `Err` outcomes.
- Concurrency between requests: every handler is one sequential step on one store.
- Go's `int` is assumed to be 64 bits wide; Atoi is modelled for that width only.
- ImageCacheController.PageNumber: it does not characterise long non-numbers. ParseUint reports overflow at the first digit that overflows, before it meets a later non-digit. So a string of more than 19 characters whose digits overflow before a bad character gives a clamped page, not 0. `Atoi` models this, but the lemma only covers inputs of at most 19 characters.
