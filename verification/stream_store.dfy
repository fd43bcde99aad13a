/** The stream store: the artworks of the accounts a user follows, held as a
    plain list and extended on each request with what is new, without what
    was deleted, and with the next page of older artworks. */
module StreamStore {
  import opened Wrappers
  import opened Seqs
  import opened Identifiers

  /** The author shown with a preview. */
  datatype Author = Author(Name: string, Alias: string)

  /** A lightweight artwork summary, as listed in a stream. */
  datatype ArtworkPreview = ArtworkPreview(
    Id: Id,
    Format: string,
    Updated: string,
    Comments: int,
    Reactions: int,
    Title: Option<string>,
    Added: Option<string>,
    Author: Option<Author>)

  /** The store's state. `lastRequest` is the clock value of the previous
      request, which the next request sends as `since`. */
  datatype Stream = Stream(
    artworks: seq<ArtworkPreview>,
    earliestArtworkDate: string,
    lastRequest: string,
    exhaustedStream: bool)

  /** The stream endpoint's answer. */
  datatype StreamPage = StreamPage(
    Artworks: seq<ArtworkPreview>,
    NewArtworks: seq<ArtworkPreview>,
    DeletedIds: seq<Id>)

  /** `a => !DeletedIds.includes(a.Id)`. */
  function NotDeleted(deleted: seq<Id>): ArtworkPreview -> bool {
    (a: ArtworkPreview) => a.Id !in deleted
  }

  /** The previously held previews that were not deleted, in their order. */
  function Kept(s: Stream, page: StreamPage): (r: seq<ArtworkPreview>) {
    Filter(s.artworks, NotDeleted(page.DeletedIds))
  }

  /** `clear`: no artworks and the cursor restarted at `now`; the exhaustion
      flag and the last request time are left as they were. */
  function Clear(s: Stream, now: string): (r: Stream)
    ensures |r.artworks| == 0 && r.earliestArtworkDate == now
    ensures r.exhaustedStream == s.exhaustedStream && r.lastRequest == s.lastRequest
  {
    s.(artworks := [], earliestArtworkDate := now)
  }

  /** `updateStream`, given the server's page and the clock value `now` read
      after the response. The list becomes the new previews, then the kept
      old ones, then the older page, with nothing deduplicated; the cursor
      moves to the `Added` of the page's last preview when it has one; the
      stream counts as exhausted exactly when the page is empty. */
  function UpdateStream(s: Stream, page: StreamPage, now: string): (r: Stream)
    ensures r.artworks == page.NewArtworks + Kept(s, page) + page.Artworks
    ensures |r.artworks| == |page.NewArtworks| + |Kept(s, page)| + |page.Artworks|
    ensures r.exhaustedStream <==> |page.Artworks| == 0
    ensures |page.Artworks| > 0 && Last(page.Artworks).Added.Some? ==>
              r.earliestArtworkDate == Last(page.Artworks).Added.value
    ensures |page.Artworks| == 0 || Last(page.Artworks).Added.None? ==>
              r.earliestArtworkDate == s.earliestArtworkDate
    ensures r.lastRequest == now
  {
    var artworks := page.NewArtworks + Filter(s.artworks, NotDeleted(page.DeletedIds)) + page.Artworks;
    var cursor := if |page.Artworks| > 0 then Last(page.Artworks).Added.GetOr(s.earliestArtworkDate)
                  else s.earliestArtworkDate;
    Stream(artworks, cursor, now, |page.Artworks| == 0)
  }

  /** The kept previews are exactly the old ones whose id was not deleted,
      each as often as before and in their old relative order. */
  lemma KeptPreviews(s: Stream, page: StreamPage)
    ensures IsSubsequence(Kept(s, page), s.artworks)
    ensures forall a :: a in Kept(s, page) <==> a in s.artworks && a.Id !in page.DeletedIds
    ensures forall a :: multiset(Kept(s, page))[a] ==
              if a.Id in page.DeletedIds then 0 else multiset(s.artworks)[a]
  {
    FilterIsSubsequence(s.artworks, NotDeleted(page.DeletedIds));
    forall a ensures multiset(Kept(s, page))[a] ==
                       if a.Id in page.DeletedIds then 0 else multiset(s.artworks)[a] {
      FilterCount(s.artworks, NotDeleted(page.DeletedIds), a);
    }
  }

  /** No duplicate removal: every preview occurs as often as it does in the
      new list, plus the old list unless its id was deleted, plus the older
      page. New and requested previews are never filtered, even when their
      id is listed as deleted or already held. */
  lemma UpdateStreamCounts(s: Stream, page: StreamPage, now: string, a: ArtworkPreview)
    ensures multiset(UpdateStream(s, page, now).artworks)[a] ==
              multiset(page.NewArtworks)[a]
              + (if a.Id in page.DeletedIds then 0 else multiset(s.artworks)[a])
              + multiset(page.Artworks)[a]
  {
    KeptPreviews(s, page);
  }

  /** An empty page leaves the list as it was (and marks the stream exhausted). */
  lemma EmptyPageKeepsStream(s: Stream, now: string)
    ensures UpdateStream(s, StreamPage([], [], []), now).artworks == s.artworks
    ensures UpdateStream(s, StreamPage([], [], []), now).exhaustedStream
  {
    FilterNothingDeleted(s.artworks);
  }

  lemma {:induction false} FilterNothingDeleted(items: seq<ArtworkPreview>)
    ensures Filter(items, NotDeleted([])) == items
    decreases |items|
  {
    if |items| > 0 {
      FilterNothingDeleted(DropLast(items));
    }
  }
}
