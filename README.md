# PhotoSwipeClean review state machine, in Dafny

PhotoSwipeClean lets a user triage a photo library one photo at a time: keep or delete the
photo under a cursor, toggle deletion of photos taken on the same day, and finally delete the
pending photos from the library in one batch. This project models the core of that flow, the
view model `PhotoReviewViewModel`, together with the `PhotoItem` record and the bounds-checked
subscript `Array[safe:]` it relies on, and proves what those operations promise.

Layout:

- `safe_subscript.dfy` (module `SafeSubscript`): `Option` and `SafeGet`, the total lookup
  behind `array[safe: index]`.
- `photo_item.dfy` (module `PhotoItems`): the `Asset` a library supplies (identifier and
  creation day), the `PhotoItem` record built from it, and `WithFlags`, the only change the
  Swift type admits: new flag values (its `id` and `creationDay` are `let` constants).
- `review_spec.dfy` (module `ReviewSpec`): the session state `ReviewState` (photo list,
  cursor, pending-deletion ids, kept ids), every operation as a function from the state before
  to the state after, and the lemmas about them: the cursor invariant `CursorInRange` kept by
  every operation, saturation of the cursor, what keep, delete and toggle change and keep, the
  same-day filter, and the batch deletion.
- `review_view_model.dfy` (module `ReviewViewModel`): the class `PhotoReviewViewModel` with the
  Swift fields, whose methods update those fields in place and are proved to move
  `State()` to the matching `ReviewSpec` function of `old(State())`; and the two scans the
  Swift code delegates to the standard library, `firstIndex(where:)` (`FindFirstIndex`) and
  `removeAll(where:)` (`RemoveAllWithIds`), as loops proved against their specification
  functions.

Modelling choices:

- The asynchronous callbacks are run to completion in order: `LoadPhotos` takes the answer to
  the authorization request and the fetched assets as parameters, and `PerformDeletion` takes
  the library's aggregate outcome (`Deleted` or `DeleteFailed` with an optional error
  description) and returns the two values the Swift completion handler receives.
- A creation date is an optional `DayKey`, the number of the local-calendar day it falls on;
  `isSameDay(as:)` is equality of keys.
- Swift's `Int` is 64 bits wide; the cursor only moves between 0 and the list length minus one,
  so no wrap-around can occur and the model uses unbounded `int`.

The code behaves as follows, and the model follows it:

- The code keeps no disjointness between `toDeleteIds` and `keptIds`: `toggleDeletion` never
  touches `keptIds` (`KeepThenToggleOverlaps` shows an id landing in both sets).
- `toggleDeletion` accepts ids that are not in the list, and it leaves `isReviewed` alone, so
  toggling a kept photo off does not make it unreviewed.
- `loadPhotos` replaces the list and resets the cursor but clears neither id set.
- The cursor of an empty list is 0.
- There is no guard against a second `performDeletion` while one is in flight.
- Review status is kept as two flags per record plus the two id sets.

## Model

| member | source | states |
|---|---|---|
| `SafeSubscript.SafeGet` | PhotoSwipeClean/Utilities/Array+Safe.swift:11-13 | total for every integer index; returns the element for `0 <= i < count`, none for negative indices, indices at or past the end, and any index of an empty array |
| `PhotoItems.FromAsset` | PhotoSwipeClean/Models/PhotoItem.swift:18-24 | a new item takes `id` and creation day from its asset and is neither marked for deletion nor reviewed |
| `PhotoItems.WithFlags` | PhotoSwipeClean/Models/PhotoItem.swift:12-16 | a record update sets the two flags and keeps identity and creation day |
| `ReviewSpec.Current` | PhotoSwipeClean/ViewModels/PhotoReviewViewModel.swift:49-51 | the current photo is the record under the cursor; under the cursor invariant it is none exactly when the list is empty |
| `ReviewSpec.FirstIndexFrom` | PhotoSwipeClean/ViewModels/PhotoReviewViewModel.swift:59 | the search result is an index whose record has the id and no earlier record has it; none means no record has it |
| `ReviewSpec.FirstIndexFromIgnoresFlags` | PhotoSwipeClean/ViewModels/PhotoReviewViewModel.swift:103-114 | which record is first with an id depends only on identities, so flag updates never move it |
| `ReviewSpec.FirstIndexOfCurrent` | PhotoSwipeClean/ViewModels/PhotoReviewViewModel.swift:54-64 | the search for the current photo's id always succeeds, at or before the cursor, so keep and delete always update a record |
| `ReviewSpec.Reflag` | PhotoSwipeClean/ViewModels/PhotoReviewViewModel.swift:59-64 | the copy-modify-write changes only the first record with the id, only its flags, and keeps length, order and all identities and dates |
| `ReviewSpec.AdvanceEffect` | PhotoSwipeClean/ViewModels/PhotoReviewViewModel.swift:85-89 | advancing adds exactly 1 when the cursor is before the last index and is a no-op otherwise (also on an empty list); it keeps the photos, both sets and the cursor invariant |
| `ReviewSpec.AdvanceSaturates` | PhotoSwipeClean/ViewModels/PhotoReviewViewModel.swift:85-89 | `n` advances in a row move the cursor to `min(cursor + n, max(0, count - 1))` and change nothing else, so calls at the end change nothing |
| `ReviewSpec.DecideWithoutCurrent` | PhotoSwipeClean/ViewModels/PhotoReviewViewModel.swift:53-83 | keep and delete change nothing when there is no current photo, which under the cursor invariant means an empty list |
| `ReviewSpec.DecideSets` | PhotoSwipeClean/ViewModels/PhotoReviewViewModel.swift:53-83 | keep puts the current id in `keptIds` and out of `toDeleteIds`, delete the reverse; no other id changes membership in either set |
| `ReviewSpec.DecideRecords` | PhotoSwipeClean/ViewModels/PhotoReviewViewModel.swift:53-83 | the first record with the current id (at or before the cursor) becomes reviewed with the decided deletion mark; length, order, identities and every other record are unchanged |
| `ReviewSpec.DecideCursor` | PhotoSwipeClean/ViewModels/PhotoReviewViewModel.swift:53-89 | after keep or delete the cursor has advanced once and the cursor invariant still holds |
| `ReviewSpec.ToggleEffect` | PhotoSwipeClean/ViewModels/PhotoReviewViewModel.swift:100-116 | toggling flips the id's membership in `toDeleteIds` and no other id's, sets the first matching record's mark to the new membership, and keeps `keptIds`, every `isReviewed`, the cursor, the length and all identities |
| `ReviewSpec.ToggleTwice` | PhotoSwipeClean/ViewModels/PhotoReviewViewModel.swift:100-116 | toggling twice restores `toDeleteIds` exactly, and restores the whole state when the record's mark agreed with the set beforehand |
| `ReviewSpec.KeepThenToggleOverlaps` | PhotoSwipeClean/ViewModels/PhotoReviewViewModel.swift:100-116 | keeping a photo and then toggling it leaves its id in both `keptIds` and `toDeleteIds` |
| `ReviewSpec.OnDayFacts` | PhotoSwipeClean/ViewModels/PhotoReviewViewModel.swift:94-97 | the same-day filter keeps exactly the records dated on the day, every copy of each, undated ones never, in list order |
| `ReviewSpec.Related` | PhotoSwipeClean/ViewModels/PhotoReviewViewModel.swift:91-98 | related photos are empty for an undated photo, otherwise exactly the dated records on the same day, with their multiplicities, as a subsequence of the list, including the photo itself when it is in the list |
| `ReviewSpec.RelatedOfFirstPhoto` | PhotoSwipeClean/ViewModels/PhotoReviewViewModel.swift:91-98 | for photos dated on days 1, 1, 2, 3, 1 the photos related to the first are the first, second and fifth |
| `ReviewSpec.WithoutIds` | PhotoSwipeClean/ViewModels/PhotoReviewViewModel.swift:138 | removal keeps exactly the records whose id is not pending, every copy of each, in their order, and never lengthens the list |
| `ReviewSpec.DeletionRejected` | PhotoSwipeClean/ViewModels/PhotoReviewViewModel.swift:118-149 | with nothing pending, or when the library fails, no field changes and failure is reported with a message ("No photos selected for deletion" when nothing is pending) |
| `ReviewSpec.DeletionSucceeded` | PhotoSwipeClean/ViewModels/PhotoReviewViewModel.swift:136-146 | on library success the list becomes the order-preserving filter of non-pending records (same members, same multiplicities, a subsequence), `toDeleteIds` empties, `keptIds` stays, the cursor is kept while below the new count and otherwise becomes `max(0, count - 1)`, and the cursor invariant holds |
| `ReviewSpec.DeleteOnlyPhoto` | PhotoSwipeClean/ViewModels/PhotoReviewViewModel.swift:69-146 | loading one photo, marking it for deletion and deleting it with success leaves an empty list, cursor 0 and no current photo |
| `ReviewSpec.ItemsFrom` | PhotoSwipeClean/ViewModels/PhotoReviewViewModel.swift:33 | loading makes one fresh unflagged item per asset, in the fetched order, carrying that asset's identity and date |
| `ReviewSpec.LoadEffect` | PhotoSwipeClean/ViewModels/PhotoReviewViewModel.swift:30-45 | an authorized or limited load replaces the list and resets the cursor to 0 (invariant holds) without clearing either set; any other status changes no field and leaves an error message |
| `ReviewSpec.FirstIndex` | PhotoSwipeClean/ViewModels/PhotoReviewViewModel.swift:59 | the first index whose record has the id, or none when no record has it |
| `ReviewSpec.Advance` | PhotoSwipeClean/ViewModels/PhotoReviewViewModel.swift:85-89 | `advanceToNext()`: the cursor stays or moves by one, nothing else changes, and the cursor invariant is kept (details in `AdvanceEffect`, `AdvanceSaturates`) |
| `ReviewSpec.Decide` | PhotoSwipeClean/ViewModels/PhotoReviewViewModel.swift:53-83 | the shared keep/delete decision keeps all identities and dates and the cursor invariant (details in `DecideSets`, `DecideRecords`, `DecideCursor`) |
| `ReviewSpec.MarkKeep` | PhotoSwipeClean/ViewModels/PhotoReviewViewModel.swift:53-67 | `markKeepCurrent()`: the current id ends in `keptIds` and not in `toDeleteIds`; with no current photo nothing changes |
| `ReviewSpec.MarkDelete` | PhotoSwipeClean/ViewModels/PhotoReviewViewModel.swift:69-83 | `markDeleteCurrent()`: the current id ends in `toDeleteIds` and not in `keptIds`; with no current photo nothing changes |
| `ReviewSpec.ToggleDeletion` | PhotoSwipeClean/ViewModels/PhotoReviewViewModel.swift:100-116 | `toggleDeletion(for:)`: flips the id's pending membership, keeps `keptIds`, the cursor and all identities (details in `ToggleEffect`, `ToggleTwice`) |
| `ReviewSpec.OnDay` | PhotoSwipeClean/ViewModels/PhotoReviewViewModel.swift:94-97 | the same-day filter is never longer than the list (membership, multiplicity and order in `OnDayFacts`) |
| `ReviewSpec.ClampCursor` | PhotoSwipeClean/ViewModels/PhotoReviewViewModel.swift:142-144 | the cursor is kept while below the new count; a non-negative cursor ends in range, or 0 for an empty list |
| `ReviewSpec.AfterDeletion` | PhotoSwipeClean/ViewModels/PhotoReviewViewModel.swift:118-146 | the state after `performDeletion`: `keptIds` kept, list never longer, either nothing changed or the pending set is empty, cursor invariant kept (details in `DeletionRejected`, `DeletionSucceeded`) |
| `ReviewSpec.DeletionReport` | PhotoSwipeClean/ViewModels/PhotoReviewViewModel.swift:119-148 | the completion reports success exactly when something was pending and the library succeeded, and carries a message exactly on failure |
| `ReviewSpec.Load` | PhotoSwipeClean/ViewModels/PhotoReviewViewModel.swift:30-45 | `loadPhotos()` keeps both id sets; a granted load sets the cursor to 0 within range; a refused one changes nothing (details in `LoadEffect`) |
| `ReviewSpec.LoadError` | PhotoSwipeClean/ViewModels/PhotoReviewViewModel.swift:36-44 | no error message exactly for authorized or limited access; the status's message otherwise |
| `ReviewViewModel.FindFirstIndex` | PhotoSwipeClean/ViewModels/PhotoReviewViewModel.swift:59 | the scan returns the first index whose record has the id, or none |
| `ReviewViewModel.RemoveAllWithIds` | PhotoSwipeClean/ViewModels/PhotoReviewViewModel.swift:138 | the single pass returns the records whose id is not in the set, in order |
| `ReviewViewModel.PhotoReviewViewModel.constructor` | PhotoSwipeClean/ViewModels/PhotoReviewViewModel.swift:14-19 | a new view model has no photos, cursor 0, empty sets, not loading and no error |
| `ReviewViewModel.PhotoReviewViewModel.LoadPhotos` | PhotoSwipeClean/ViewModels/PhotoReviewViewModel.swift:23-47 | the fields move as `Load` says, `loadError` is the status's message, loading has finished, and the cursor invariant holds afterwards |
| `ReviewViewModel.PhotoReviewViewModel.CurrentPhoto` | PhotoSwipeClean/ViewModels/PhotoReviewViewModel.swift:49-51 | the photo under the cursor; none exactly when the list is empty |
| `ReviewViewModel.PhotoReviewViewModel.AdvanceToNext` | PhotoSwipeClean/ViewModels/PhotoReviewViewModel.swift:85-89 | the fields move as `Advance` says and the cursor invariant is kept |
| `ReviewViewModel.PhotoReviewViewModel.MarkKeepCurrent` | PhotoSwipeClean/ViewModels/PhotoReviewViewModel.swift:53-67 | the fields move as the keep decision says, the loading fields are untouched, and the cursor invariant is kept |
| `ReviewViewModel.PhotoReviewViewModel.MarkDeleteCurrent` | PhotoSwipeClean/ViewModels/PhotoReviewViewModel.swift:69-83 | the fields move as the delete decision says, the loading fields are untouched, and the cursor invariant is kept |
| `ReviewViewModel.PhotoReviewViewModel.RelatedPhotos` | PhotoSwipeClean/ViewModels/PhotoReviewViewModel.swift:91-98 | equals `Related` of the state: the same-day records of the list with their multiplicities, as a subsequence; none for an undated photo |
| `ReviewViewModel.PhotoReviewViewModel.ToggleDeletion` | PhotoSwipeClean/ViewModels/PhotoReviewViewModel.swift:100-116 | the fields move as the toggle says and the cursor invariant is kept |
| `ReviewViewModel.PhotoReviewViewModel.PerformDeletion` | PhotoSwipeClean/ViewModels/PhotoReviewViewModel.swift:118-152 | the fields move as `AfterDeletion` says, the returned pair is what the completion handler receives, and the cursor invariant is kept |

## Left out

- Asynchrony: the authorization callback, the `DispatchQueue.main.async` hop and `[weak self]`
  are not modelled; each operation runs to completion before the next starts. In particular
  the Swift deletion filters by `toDeleteIds` as it stands when the library answers, which in
  this sequential model is the set at the call.
- The Photos framework: requesting authorization, fetching the assets (newest first, images
  only), resolving identifiers to assets and `PHPhotoLibrary.performChanges` are foreign calls;
  their results are parameters. Identifiers that no longer resolve are not modelled.
- The `asset: PHAsset` field of `PhotoItem`, image loading and pixel data.
- `Date.isSameDay(as:)` uses the device's current calendar; the model compares abstract day
  keys and proves no calendar facts.
- `@Published` change notification and the SwiftUI views.
- `ReviewViewModel.RemoveAllWithIds`: builds a new sequence instead of compacting the array in
  place; aliasing of the array is not modelled.
