/** The review view model: an object holding the photo list, the cursor and the two id sets,
    updated in place by the review operations. Each method is proved to move the object from
    `old(State())` to the state given by the matching function of module ReviewSpec. */
module ReviewViewModel {
  import opened SafeSubscript
  import opened PhotoItems
  import opened ReviewSpec

  /** `photos.firstIndex(where: { $0.id == id })`: a front-to-back scan. */
  method FindFirstIndex(photos: seq<PhotoItem>, id: string) returns (r: Option<nat>)
    ensures r == FirstIndex(photos, id)
  {
    var i := 0;
    while i < |photos|
      invariant 0 <= i <= |photos|
      invariant FirstIndexFrom(photos, id, i) == FirstIndex(photos, id)
    {
      if photos[i].id == id {
        return Some(i);
      }
      i := i + 1;
    }
    return None;
  }

  /** `photos.removeAll { ids.contains($0.id) }`: one pass that keeps the survivors in order. */
  method RemoveAllWithIds(photos: seq<PhotoItem>, ids: set<string>) returns (r: seq<PhotoItem>)
    ensures r == WithoutIds(photos, ids)
  {
    r := [];
    var i := 0;
    while i < |photos|
      invariant 0 <= i <= |photos|
      invariant r == WithoutIds(photos[..i], ids)
    {
      assert photos[..i + 1][..i] == photos[..i];
      if photos[i].id !in ids {
        r := r + [photos[i]];
      }
      i := i + 1;
    }
    assert photos[..|photos|] == photos;
  }

  class PhotoReviewViewModel {
    var allPhotos: seq<PhotoItem>
    var currentIndex: int
    var toDeleteIds: set<string>
    var keptIds: set<string>
    var isLoading: bool
    var loadError: Option<string>

    /** The fields the review operations work on. */
    function State(): ReviewState
      reads this
    {
      ReviewState(allPhotos, currentIndex, toDeleteIds, keptIds)
    }

    /** The object invariant: the cursor is in range. */
    ghost predicate Valid()
      reads this
    {
      CursorInRange(State())
    }

    constructor ()
      ensures Valid()
      ensures allPhotos == [] && currentIndex == 0 && toDeleteIds == {} && keptIds == {}
      ensures !isLoading && loadError == None
    {
      allPhotos := [];
      currentIndex := 0;
      toDeleteIds := {};
      keptIds := {};
      isLoading := false;
      loadError := None;
    }

    /** `loadPhotos()`, with the answer to the authorization request and the fetched assets
        passed in. */
    method LoadPhotos(status: AuthorizationStatus, assets: seq<Asset>)
      modifies this
      ensures State() == Load(old(State()), status, assets)
      ensures loadError == LoadError(status) && !isLoading
      ensures Grants(status) || old(Valid()) ==> Valid()
    {
      isLoading := true;
      loadError := None;
      match status
      case Authorized | Limited =>
        allPhotos := ItemsFrom(assets);
        currentIndex := 0;
        isLoading := false;
      case Denied | Restricted =>
        loadError := Some(AccessDeniedMessage);
        isLoading := false;
      case NotDetermined =>
        loadError := Some(NotDeterminedMessage);
        isLoading := false;
      case UnknownStatus =>
        loadError := Some(UnknownStatusMessage);
        isLoading := false;
    }

    /** `currentPhoto()`: the photo under the cursor, or none exactly when the list is empty. */
    function CurrentPhoto(): (r: Option<PhotoItem>)
      reads this
      ensures Valid() ==> (r.None? <==> allPhotos == [])
      ensures r.Some? ==> 0 <= currentIndex < |allPhotos| && r.value == allPhotos[currentIndex]
    {
      SafeGet(allPhotos, currentIndex)
    }

    /** `advanceToNext()`. */
    method AdvanceToNext()
      modifies this
      ensures State() == Advance(old(State()))
      ensures isLoading == old(isLoading) && loadError == old(loadError)
      ensures old(Valid()) ==> Valid()
    {
      if currentIndex < |allPhotos| - 1 {
        currentIndex := currentIndex + 1;
      }
      AdvanceEffect(old(State()));
    }

    /** `markKeepCurrent()`. */
    method MarkKeepCurrent()
      modifies this
      ensures State() == MarkKeep(old(State()))
      ensures isLoading == old(isLoading) && loadError == old(loadError)
      ensures old(Valid()) ==> Valid()
    {
      var photo := CurrentPhoto();
      if photo.None? {
        return;
      }
      var id := photo.value.id;
      keptIds := keptIds + {id};
      toDeleteIds := toDeleteIds - {id};
      var index := FindFirstIndex(allPhotos, id);
      if index.Some? {
        var updatedPhoto := allPhotos[index.value];
        updatedPhoto := updatedPhoto.(isMarkedForDeletion := false);
        updatedPhoto := updatedPhoto.(isReviewed := true);
        allPhotos := allPhotos[index.value := updatedPhoto];
      }
      AdvanceToNext();
      if old(Valid()) {
        DecideCursor(old(State()), false);
      }
    }

    /** `markDeleteCurrent()`. */
    method MarkDeleteCurrent()
      modifies this
      ensures State() == MarkDelete(old(State()))
      ensures isLoading == old(isLoading) && loadError == old(loadError)
      ensures old(Valid()) ==> Valid()
    {
      var photo := CurrentPhoto();
      if photo.None? {
        return;
      }
      var id := photo.value.id;
      toDeleteIds := toDeleteIds + {id};
      keptIds := keptIds - {id};
      var index := FindFirstIndex(allPhotos, id);
      if index.Some? {
        var updatedPhoto := allPhotos[index.value];
        updatedPhoto := updatedPhoto.(isMarkedForDeletion := true);
        updatedPhoto := updatedPhoto.(isReviewed := true);
        allPhotos := allPhotos[index.value := updatedPhoto];
      }
      AdvanceToNext();
      if old(Valid()) {
        DecideCursor(old(State()), true);
      }
    }

    /** `relatedPhotos(for:)`: the records dated on the same day as `photo`, in list order. */
    function RelatedPhotos(photo: PhotoItem): (r: seq<PhotoItem>)
      reads this
      ensures r == Related(State(), photo)
      ensures photo.creationDay.None? ==> r == []
      ensures forall p :: p in r ==> p in allPhotos && p.creationDay.Some? && p.creationDay == photo.creationDay
      ensures forall p :: p in allPhotos && p.creationDay.Some? && p.creationDay == photo.creationDay ==> p in r
      ensures forall p ::
        multiset(r)[p] == if p.creationDay.Some? && p.creationDay == photo.creationDay then multiset(allPhotos)[p] else 0
      ensures IsSubsequence(r, allPhotos)
    {
      Related(State(), photo)
    }

    /** `toggleDeletion(for:)`. */
    method ToggleDeletion(photoId: string)
      modifies this
      ensures State() == ReviewSpec.ToggleDeletion(old(State()), photoId)
      ensures isLoading == old(isLoading) && loadError == old(loadError)
      ensures old(Valid()) ==> Valid()
    {
      if photoId in toDeleteIds {
        toDeleteIds := toDeleteIds - {photoId};
        var index := FindFirstIndex(allPhotos, photoId);
        if index.Some? {
          var updatedPhoto := allPhotos[index.value];
          updatedPhoto := updatedPhoto.(isMarkedForDeletion := false);
          allPhotos := allPhotos[index.value := updatedPhoto];
        }
      } else {
        toDeleteIds := toDeleteIds + {photoId};
        var index := FindFirstIndex(allPhotos, photoId);
        if index.Some? {
          var updatedPhoto := allPhotos[index.value];
          updatedPhoto := updatedPhoto.(isMarkedForDeletion := true);
          allPhotos := allPhotos[index.value := updatedPhoto];
        }
      }
      ToggleEffect(old(State()), photoId);
    }

    /** `performDeletion(completion:)`, with the library's answer passed in; returns what the
        completion handler receives. */
    method PerformDeletion(outcome: LibraryOutcome) returns (success: bool, message: Option<string>)
      modifies this
      ensures State() == AfterDeletion(old(State()), outcome)
      ensures Report(success, message) == DeletionReport(old(State()), outcome)
      ensures isLoading == old(isLoading) && loadError == old(loadError)
      ensures old(Valid()) ==> Valid()
    {
      if toDeleteIds == {} {
        return false, Some(NoSelectionMessage);
      }
      match outcome
      case DeleteFailed(description) =>
        success, message := false, Some(description.GetOr(UnknownErrorMessage));
      case Deleted =>
        ghost var before := State();
        allPhotos := RemoveAllWithIds(allPhotos, toDeleteIds);
        toDeleteIds := {};
        if currentIndex >= |allPhotos| {
          currentIndex := Max(0, |allPhotos| - 1);
        }
        DeletionSucceeded(before);
        success, message := true, None;
    }
  }
}
