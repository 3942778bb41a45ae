/** A photo of the library as the review flow sees it: an immutable identity and creation day,
    and two mutable review flags. */
module PhotoItems {
  import opened SafeSubscript

  /** The local-calendar day on which a photo was taken, as a day number. Two creation dates
      fall on the same day exactly when their keys are equal. */
  type DayKey = int

  /** What the photo library supplies for one still image. */
  datatype Asset = Asset(localIdentifier: string, creationDay: Option<DayKey>)

  datatype PhotoItem = PhotoItem(
    id: string,
    creationDay: Option<DayKey>,
    isMarkedForDeletion: bool,
    isReviewed: bool)

  /** `Date.isSameDay(as:)`, on day keys. */
  predicate IsSameDay(d: DayKey, e: DayKey) {
    d == e
  }

  /** The immutable part of an item: the asset it was made from. */
  function Facets(p: PhotoItem): Asset {
    Asset(p.id, p.creationDay)
  }

  /** `PhotoItem(asset:)`: identity and date come from the asset, and a new item is neither
      marked for deletion nor reviewed. */
  function FromAsset(asset: Asset): (p: PhotoItem)
    ensures Facets(p) == asset
    ensures p.id == asset.localIdentifier && p.creationDay == asset.creationDay
    ensures !p.isMarkedForDeletion && !p.isReviewed
  {
    PhotoItem(asset.localIdentifier, asset.creationDay, false, false)
  }

  /** The only change an item admits after construction: new values for its two flags.
      Identity and creation day are kept. */
  function WithFlags(p: PhotoItem, marked: bool, reviewed: bool): (q: PhotoItem)
    ensures Facets(q) == Facets(p)
    ensures q.isMarkedForDeletion == marked && q.isReviewed == reviewed
  {
    p.(isMarkedForDeletion := marked, isReviewed := reviewed)
  }

  /** Two lists hold the same assets in the same positions; only flags may differ. */
  predicate SameFacets(a: seq<PhotoItem>, b: seq<PhotoItem>) {
    |a| == |b| && forall k :: 0 <= k < |a| ==> Facets(a[k]) == Facets(b[k])
  }
}
