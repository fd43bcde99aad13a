/** The artist store: the profile of the artist being viewed, the follow and
    block counters the viewer's actions adjust locally, and the artist's
    uploaded artworks, kept as an insertion-ordered map from artwork id to
    artwork and extended page by page from the server. */
module ArtistStore {
  import opened Wrappers
  import opened Seqs
  import opened InsertionMap
  import opened Identifiers

  /** An artwork as the artworks listing returns it; timestamps are opaque strings. */
  datatype UploadedArtwork = UploadedArtwork(
    Id: Id,
    Title: Option<string>,
    Format: string,
    Added: string,
    Comments: int,
    Reactions: int)

  /** The viewed artist's profile and the viewer's relation to them. */
  datatype Artist = Artist(
    Alias: string,
    Name: string,
    Email: string,
    Created: string,
    Followers: int,
    Following: int,
    Artworks: int,
    Reactions: int,
    Comments: int,
    FollowsUser: bool,
    FollowedByUser: bool,
    BlockedByUser: bool)

  /** The artworks held by the store, in reverse chronological order, and the
      cursor (`earliestArtworkDate`) the next request starts from. */
  datatype Gallery = Gallery(artworks: seq<(Id, UploadedArtwork)>, earliestArtworkDate: string)

  /** One page of the artworks listing: the next older artworks, the ones
      uploaded since the previous request, and the ids deleted since then. */
  datatype ArtworksPage = ArtworksPage(
    Requested: seq<UploadedArtwork>,
    New: seq<UploadedArtwork>,
    Deleted: seq<Id>)

  /** Each artwork as a map entry keyed by its own id. */
  function Entries(arts: seq<UploadedArtwork>): (es: seq<(Id, UploadedArtwork)>)
    ensures |es| == |arts|
    ensures forall i :: 0 <= i < |arts| ==> es[i] == (arts[i].Id, arts[i])
  {
    seq(|arts|, i requires 0 <= i < |arts| => (arts[i].Id, arts[i]))
  }

  /** The ids of a list of artworks, in order. */
  function Ids(arts: seq<UploadedArtwork>): (r: seq<Id>) {
    Keys(Entries(arts))
  }

  /** Every stored artwork sits under its own id. */
  predicate KeyedById(m: seq<(Id, UploadedArtwork)>) {
    forall i :: 0 <= i < |m| ==> m[i].1.Id == m[i].0
  }

  /** The invariant the store keeps: a genuine map, keyed by artwork id. */
  predicate WellFormed(g: Gallery) {
    Valid(g.artworks) && KeyedById(g.artworks)
  }

  /** `resetArtworks`: empties the collection and restarts the cursor at `now`. */
  function ResetArtworks(g: Gallery, now: string): (r: Gallery)
    ensures WellFormed(r) && |r.artworks| == 0
    ensures r.earliestArtworkDate == now
  {
    Gallery([], now)
  }

  /** The three steps of `loadArtworks`, named for the lemmas: the map built
      from `New`, the collection after the deletions, and the collection
      after the requested page is set into it. */
  function NewArtworks(page: ArtworksPage): (r: seq<(Id, UploadedArtwork)>) {
    SetAll([], Entries(page.New))
  }

  function Pruned(g: Gallery, page: ArtworksPage): (r: seq<(Id, UploadedArtwork)>) {
    DeleteAll(g.artworks, page.Deleted)
  }

  function Extended(g: Gallery, page: ArtworksPage): (r: seq<(Id, UploadedArtwork)>) {
    SetAll(Pruned(g, page), Entries(page.Requested))
  }

  /** `loadArtworks`, given the server's page: the result is a map whatever
      the page holds, and the cursor moves to the `Added` date of the last
      (oldest) requested artwork, staying put when the page requested none. */
  function LoadArtworks(g: Gallery, page: ArtworksPage): (r: Gallery)
    ensures Valid(r.artworks)
    ensures |page.Requested| > 0 ==> r.earliestArtworkDate == Last(page.Requested).Added
    ensures |page.Requested| == 0 ==> r.earliestArtworkDate == g.earliestArtworkDate
  {
    var merged := FromEntries(NewArtworks(page) + Extended(g, page));
    var cursor := if |page.Requested| > 0 then Last(page.Requested).Added else g.earliestArtworkDate;
    Gallery(merged, cursor)
  }

  /** The surviving old ids, in their old order. */
  function Survivors(g: Gallery, page: ArtworksPage): (r: seq<Id>) {
    Filter(Keys(g.artworks), NotIn(Elems(page.Deleted)))
  }

  lemma NewArtworksKeys(page: ArtworksPage)
    ensures Valid(NewArtworks(page))
    ensures Keys(NewArtworks(page)) == Fresh(Ids(page.New), {})
  {
    assert NewArtworks(page) == FromEntries(Entries(page.New));
  }

  lemma ExtendedKeys(g: Gallery, page: ArtworksPage)
    requires Valid(g.artworks)
    ensures Valid(Extended(g, page))
    ensures Keys(Extended(g, page)) ==
              Survivors(g, page) + Fresh(Ids(page.Requested), Elems(Survivors(g, page)))
  {
    WithoutKeysProps(g.artworks, Elems(page.Deleted));
    assert Keys(Pruned(g, page)) == Survivors(g, page);
    SetAllKeys(Pruned(g, page), Entries(page.Requested));
  }

  /** The ids listed as new, each once, in order of first occurrence. */
  function NewIds(page: ArtworksPage): (r: seq<Id>) {
    Fresh(Ids(page.New), {})
  }

  /** The surviving old ids that are not also new, in their old order. */
  function Middle(g: Gallery, page: ArtworksPage): (r: seq<Id>) {
    Filter(Survivors(g, page), NotIn(Elems(NewIds(page))))
  }

  /** The specified order after a load: the new ids first, in order of first
      occurrence in the response; then the surviving old ids that are not
      new, in their old order; then the requested ids present in neither, in
      response order. */
  function MergedOrder(g: Gallery, page: ArtworksPage): (r: seq<Id>) {
    NewIds(page)
    + Middle(g, page)
    + Fresh(Ids(page.Requested), Elems(Survivors(g, page)) + Elems(NewIds(page)))
  }

  /** The specified ids after a load: the new ones, the old ones not deleted,
      and the requested ones. A deletion applies only to what was held
      before, so a new or requested artwork listed as deleted stays. */
  function MergedIds(g: Gallery, page: ArtworksPage): (r: set<Id>) {
    Elems(Ids(page.New))
    + (Elems(Keys(g.artworks)) - Elems(page.Deleted))
    + Elems(Ids(page.Requested))
  }

  /** The keys after a load, as the spread of the two intermediate maps
      leaves them. */
  lemma LoadArtworksSpread(g: Gallery, page: ArtworksPage)
    requires Valid(g.artworks)
    ensures Keys(LoadArtworks(g, page).artworks) ==
              NewIds(page) + Filter(Survivors(g, page) + Fresh(Ids(page.Requested), Elems(Survivors(g, page))),
                                    NotIn(Elems(NewIds(page))))
  {
    NewArtworksKeys(page);
    ExtendedKeys(g, page);
    MergeSpreadKeys(NewArtworks(page), Extended(g, page));
  }

  lemma LoadArtworksOrder(g: Gallery, page: ArtworksPage)
    requires Valid(g.artworks)
    ensures Keys(LoadArtworks(g, page).artworks) == MergedOrder(g, page)
  {
    var newIds := NewIds(page);
    var survivors := Survivors(g, page);
    var requested := Fresh(Ids(page.Requested), Elems(survivors));
    LoadArtworksSpread(g, page);
    FilterConcat(survivors, requested, NotIn(Elems(newIds)));
    FilterFresh(Ids(page.Requested), Elems(survivors), Elems(newIds));
  }

  /** Each specified id is held exactly once. */
  lemma LoadArtworksIds(g: Gallery, page: ArtworksPage)
    requires Valid(g.artworks)
    ensures Distinct(Keys(LoadArtworks(g, page).artworks))
    ensures Elems(Keys(LoadArtworks(g, page).artworks)) == MergedIds(g, page)
  {
    LoadArtworksOrder(g, page);
    MergedOrderElems(g, page);
  }

  lemma MergedOrderElems(g: Gallery, page: ArtworksPage)
    ensures Elems(MergedOrder(g, page)) == MergedIds(g, page)
  {
    var newIds := NewIds(page);
    var survivors := Survivors(g, page);
    var middle := Middle(g, page);
    var tail := Fresh(Ids(page.Requested), Elems(survivors) + Elems(newIds));
    assert MergedOrder(g, page) == newIds + middle + tail;
    forall x ensures x in Elems(MergedOrder(g, page)) <==> x in MergedIds(g, page) {
      assert x in newIds <==> x in Ids(page.New);
      assert x in middle <==> x in survivors && x !in newIds;
      assert x in tail <==> x in Ids(page.Requested) && x !in survivors && x !in newIds;
      assert x in survivors <==> x in Keys(g.artworks) && x !in page.Deleted;
    }
  }

  /** The artwork stored under each id: a requested id carries its last
      requested version (even when it was already held, or also new); else
      a surviving old id keeps its stored artwork, which then wins over a
      version listed as new; else it carries its last version listed as new. */
  lemma LoadArtworksValues(g: Gallery, page: ArtworksPage, k: Id)
    requires Valid(g.artworks)
    ensures Get(LoadArtworks(g, page).artworks, k) ==
              if k in Ids(page.Requested) then Get(Entries(page.Requested), k)
              else if k in Keys(g.artworks) && k !in page.Deleted then Get(g.artworks, k)
              else Get(Entries(page.New), k)
  {
    NewArtworksKeys(page);
    ExtendedKeys(g, page);
    MergeSpreadGet(NewArtworks(page), Extended(g, page), k);
    SetAllGet(Pruned(g, page), Entries(page.Requested), k);
    WithoutKeysProps(g.artworks, Elems(page.Deleted));
    SetAllGet([], Entries(page.New), k);
  }

  /** A requested artwork that was already held (and not deleted or new)
      keeps its place among the surviving old entries, which follow the
      block of new ones in their old order, but takes the requested
      version. */
  lemma RequestedExistingKeepsPlace(g: Gallery, page: ArtworksPage, k: Id)
    requires Valid(g.artworks)
    requires k in Keys(g.artworks) && k !in page.Deleted
    requires k !in Ids(page.New) && k in Ids(page.Requested)
    ensures
      var ks := Keys(LoadArtworks(g, page).artworks);
      var lead := |NewIds(page)|;
      lead + |Middle(g, page)| <= |ks| && ks[lead..lead + |Middle(g, page)|] == Middle(g, page)
    ensures k in Middle(g, page)
    ensures Get(LoadArtworks(g, page).artworks, k) == Get(Entries(page.Requested), k)
  {
    LoadArtworksOrder(g, page);
    LoadArtworksValues(g, page, k);
    assert k in Survivors(g, page);
    assert k !in NewIds(page);
  }

  /** Every id listed as new sits in the leading block of the result, and
      nowhere after it. */
  lemma NewIdsLead(g: Gallery, page: ArtworksPage, k: Id)
    requires Valid(g.artworks)
    requires k in Ids(page.New)
    ensures
      var ks := Keys(LoadArtworks(g, page).artworks);
      var lead := |NewIds(page)|;
      lead <= |ks| && k in ks[..lead] && k !in ks[lead..]
  {
    LoadArtworksOrder(g, page);
    var ks := Keys(LoadArtworks(g, page).artworks);
    var lead := NewIds(page);
    var tail := Fresh(Ids(page.Requested), Elems(Survivors(g, page)) + Elems(lead));
    LeadingPart(ks, lead, Middle(g, page), tail, k);
  }

  /** An artwork listed as new that the collection already holds is placed
      in the leading block of new artworks, yet keeps the stored version,
      since the collection's entries are spread after the new ones. */
  lemma NewExistingKeepsStoredVersion(g: Gallery, page: ArtworksPage, k: Id)
    requires Valid(g.artworks)
    requires k in Ids(page.New) && k in Keys(g.artworks)
    requires k !in page.Deleted && k !in Ids(page.Requested)
    ensures
      var ks := Keys(LoadArtworks(g, page).artworks);
      var lead := |NewIds(page)|;
      lead <= |ks| && k in ks[..lead] && k !in ks[lead..]
    ensures Get(LoadArtworks(g, page).artworks, k) == Get(g.artworks, k)
  {
    NewIdsLead(g, page, k);
    LoadArtworksValues(g, page, k);
  }

  /** A page with nothing new, deleted or requested leaves the collection as it was. */
  lemma EmptyPageKeepsArtworks(g: Gallery)
    requires Valid(g.artworks)
    ensures LoadArtworks(g, ArtworksPage([], [], [])).artworks == g.artworks
  {
    var page := ArtworksPage([], [], []);
    assert Elems<Id>([]) == {};
    FilterNothing(g.artworks);
    assert NewArtworks(page) + Extended(g, page) == g.artworks;
    FromOwnEntries(g.artworks);
  }

  lemma EntriesKeyedById(arts: seq<UploadedArtwork>, k: Id)
    ensures forall v :: Get(Entries(arts), k) == Some(v) ==> v.Id == k
  {
  }

  /** Loading a page keeps the store's invariant: every artwork is stored
      under its own id. */
  lemma LoadArtworksWellFormed(g: Gallery, page: ArtworksPage)
    requires WellFormed(g)
    ensures WellFormed(LoadArtworks(g, page))
  {
    var m := LoadArtworks(g, page).artworks;
    forall i | 0 <= i < |m| ensures m[i].1.Id == m[i].0 {
      GetEntry(m, i);
      LoadArtworksValues(g, page, m[i].0);
      EntriesKeyedById(page.Requested, m[i].0);
      EntriesKeyedById(page.New, m[i].0);
      assert (m[i].0, m[i].1) in g.artworks ==> m[i].1.Id == m[i].0;
    }
  }

  /** Profile fields the follow and block actions never touch. */
  predicate SameProfile(a: Artist, b: Artist) {
    a.Alias == b.Alias && a.Name == b.Name && a.Email == b.Email && a.Created == b.Created
    && a.Following == b.Following && a.Artworks == b.Artworks
    && a.Reactions == b.Reactions && a.Comments == b.Comments
  }

  /** `addUserAsFollower`: the viewer now follows the artist, one more follower. */
  function AddUserAsFollower(a: Artist): (r: Artist)
    ensures r.FollowedByUser && r.Followers == a.Followers + 1
    ensures r.FollowsUser == a.FollowsUser && r.BlockedByUser == a.BlockedByUser
    ensures SameProfile(a, r)
  {
    a.(FollowedByUser := true, Followers := a.Followers + 1)
  }

  /** `removeUserAsFollower`: the viewer no longer follows, one follower fewer. */
  function RemoveUserAsFollower(a: Artist): (r: Artist)
    ensures !r.FollowedByUser && r.Followers == a.Followers - 1
    ensures r.FollowsUser == a.FollowsUser && r.BlockedByUser == a.BlockedByUser
    ensures SameProfile(a, r)
  {
    a.(FollowedByUser := false, Followers := a.Followers - 1)
  }

  /** `blockUser`: both follow relations end, the artist is marked blocked,
      and the follower count drops by one whether or not the viewer followed. */
  function BlockUser(a: Artist): (r: Artist)
    ensures !r.FollowsUser && !r.FollowedByUser && r.BlockedByUser
    ensures r.Followers == a.Followers - 1
    ensures SameProfile(a, r)
  {
    a.(FollowsUser := false, FollowedByUser := false, Followers := a.Followers - 1, BlockedByUser := true)
  }

  /** `unblockUser`: only the blocked flag changes. */
  function UnblockUser(a: Artist): (r: Artist)
    ensures !r.BlockedByUser
    ensures r.FollowsUser == a.FollowsUser && r.FollowedByUser == a.FollowedByUser
    ensures r.Followers == a.Followers && SameProfile(a, r)
  {
    a.(BlockedByUser := false)
  }

  /** Following and then unfollowing restores the count; starting from a
      non-follower it restores the whole profile. */
  lemma FollowThenUnfollow(a: Artist)
    ensures RemoveUserAsFollower(AddUserAsFollower(a)).Followers == a.Followers
    ensures !a.FollowedByUser ==> RemoveUserAsFollower(AddUserAsFollower(a)) == a
  {
  }

  /** Unfollowing and then following again restores a follower's profile. */
  lemma UnfollowThenFollow(a: Artist)
    ensures a.FollowedByUser ==> AddUserAsFollower(RemoveUserAsFollower(a)) == a
  {
  }

  /** Unblocking does not undo a block: the follow relations and the
      decremented count stay as the block left them. */
  lemma BlockThenUnblock(a: Artist)
    ensures
      var r := UnblockUser(BlockUser(a));
      !r.BlockedByUser && !r.FollowsUser && !r.FollowedByUser && r.Followers == a.Followers - 1
  {
  }
}
