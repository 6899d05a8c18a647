/** The fixed six-photo gallery of the dashboard (`components/PhotoGallery.tsx`):
    the lightbox index, its position counter, the dot strip and the larger
    image URL the lightbox loads. */
module PhotoGallery {
  import opened Wrappers
  import opened Text
  import opened Cyclic

  datatype Memory = Memory(id: string, url: string, caption: string, date: string)

  const UrlHead: string := "https://images.unsplash.com/photo-"
  const ThumbnailSize: string := "w=400&h=300"
  const FullSize: string := "w=1200&h=800"

  /** The URL of an Unsplash photo at thumbnail size, as every memory's `url` reads. */
  function ThumbnailUrl(photoId: string): string {
    UrlHead + photoId + "?" + ThumbnailSize + "&fit=crop"
  }

  /** The Unsplash ids of the six photos, in gallery order. */
  const PhotoIds: seq<string> := [
    "1518199266791-5375a83190b7", "1529333166437-7750a6dd5a70", "1516589178581-6cd7833ae3b2",
    "1544894079-e81a9eb1da4c", "1494774157365-9e04c6720e47", "1522673607200-164d1b6ce486"
  ]

  const Memories: seq<Memory> := [
    Memory("1", ThumbnailUrl(PhotoIds[0]), "Our first date \U{1F495}", "Feb 14, 2024"),
    Memory("2", ThumbnailUrl(PhotoIds[1]), "Beach sunset together", "Mar 20, 2024"),
    Memory("3", ThumbnailUrl(PhotoIds[2]), "Dancing in the rain", "Apr 15, 2024"),
    Memory("4", ThumbnailUrl(PhotoIds[3]), "Our picnic adventure", "May 10, 2024"),
    Memory("5", ThumbnailUrl(PhotoIds[4]), "Stargazing night", "Jun 5, 2024"),
    Memory("6", ThumbnailUrl(PhotoIds[5]), "Coffee date mornings", "Jul 20, 2024")
  ]

  /** The lightbox image: `url.replace('w=400&h=300', 'w=1200&h=800')`. */
  function LightboxUrl(url: string): string {
    ReplaceFirst(url, ThumbnailSize, FullSize)
  }

  /** The size in an Unsplash thumbnail URL is rewritten to the large size and
      nothing else changes, for any photo id without a 'w'. */
  lemma LightboxUrlOfThumbnail(photoId: string)
    requires 'w' !in photoId
    ensures LightboxUrl(ThumbnailUrl(photoId)) == UrlHead + photoId + "?" + FullSize + "&fit=crop"
  {
    var prefix := UrlHead + photoId + "?";
    var s := prefix + ThumbnailSize + "&fit=crop";
    assert 'w' !in UrlHead;
    forall j | 0 <= j < |prefix| ensures !OccursAt(s, ThumbnailSize, j) {
      assert s[j] == prefix[j];
      if j < |UrlHead| {
        assert prefix[j] == UrlHead[j];
      } else if j < |UrlHead| + |photoId| {
        assert prefix[j] == photoId[j - |UrlHead|];
      } else {
        assert prefix[j] == '?';
      }
      OccurrenceStartsWithHead(s, ThumbnailSize, j);
    }
    assert ThumbnailUrl(photoId) == s;
    ReplaceFirstAt(prefix, ThumbnailSize, FullSize, "&fit=crop");
  }

  /** The counter "(i + 1) / length": the one-based position. */
  function Position(index: nat): nat {
    index + 1
  }

  lemma PositionInRange(index: nat, n: nat)
    requires index < n
    ensures 1 <= Position(index) <= n
  {
  }

  /** Whether dot `idx` of the strip is the highlighted one. */
  predicate DotHighlighted(idx: nat, selected: Option<nat>) {
    selected == Some(idx)
  }

  /** With a photo open, exactly its dot is highlighted. */
  lemma ExactlyOneDot(selected: nat, n: nat)
    requires selected < n
    ensures (set idx | 0 <= idx < n && DotHighlighted(idx, Some(selected))) == {selected}
  {
    var s := set idx | 0 <= idx < n && DotHighlighted(idx, Some(selected));
    assert selected in s;
  }

  class PhotoGallery {
    /** The photo open in the lightbox, if any. */
    var selectedIndex: Option<nat>

    predicate Valid()
      reads this
    {
      selectedIndex.Some? ==> selectedIndex.value < |Memories|
    }

    constructor ()
      ensures selectedIndex.None? && Valid()
    {
      selectedIndex := None;
    }

    /** Clicking a photo or a dot opens that photo. */
    method Open(index: nat)
      requires index < |Memories|
      modifies this
      ensures selectedIndex == Some(index) && Valid()
    {
      selectedIndex := Some(index);
    }

    method Close()
      modifies this
      ensures selectedIndex.None? && Valid()
    {
      selectedIndex := None;
    }

    /** `nextPhoto`: `(i + 1) % 6`; nothing without an open photo. */
    method NextPhoto()
      requires Valid()
      modifies this
      ensures Valid()
      ensures old(selectedIndex).None? ==> selectedIndex.None?
      ensures old(selectedIndex).Some? ==> selectedIndex == Some(Next(old(selectedIndex).value, 6))
    {
      if selectedIndex.Some? {
        selectedIndex := Some(Next(selectedIndex.value, |Memories|));
      }
    }

    /** `prevPhoto`: `(i - 1 + 6) % 6`; nothing without an open photo. */
    method PrevPhoto()
      requires Valid()
      modifies this
      ensures Valid()
      ensures old(selectedIndex).None? ==> selectedIndex.None?
      ensures old(selectedIndex).Some? ==> selectedIndex == Some(Prev(old(selectedIndex).value, 6))
    {
      if selectedIndex.Some? {
        selectedIndex := Some(Prev(selectedIndex.value, |Memories|));
      }
    }
  }
}
