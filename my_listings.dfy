/** The seller's own listings page: the fetched listings, deleting one after
    the user confirmed and the backend accepted, and the count label. */
module MyListings {
  import opened Common
  import opened Seqs
  import opened Records

  /** The listings after deleting `id`: `prev.filter(l => l.id !== id)`. */
  function RemoveListing(listings: seq<Listing>, id: int): seq<Listing> {
    Keep(listings, (l: Listing) => l.id != id)
  }

  /** Deleting removes every listing with that id and keeps all the others,
      in their order; deleting an id that is not there changes nothing. */
  lemma RemoveListingProperties(listings: seq<Listing>, id: int)
    ensures forall l :: l in RemoveListing(listings, id) <==> l in listings && l.id != id
    ensures IsSubsequence(RemoveListing(listings, id), listings)
    ensures (forall l :: l in listings ==> l.id != id) ==> RemoveListing(listings, id) == listings
  {
    var p := (l: Listing) => l.id != id;
    KeepMembers(listings, p);
    KeepIsSubsequence(listings, p);
    if forall l :: l in listings ==> l.id != id {
      forall i | 0 <= i < |listings| ensures p(listings[i]) {
        assert listings[i] in listings;
      }
      KeepAll(listings, p);
    }
  }

  const DeletedMessage := "Listing deleted successfully!"

  /** `{n} listing` or `{n} listings`. */
  function CountLabel(n: nat): (s: string)
    ensures s == "listing" <==> n == 1
    ensures s == "listings" <==> n != 1
  {
    if n == 1 then "listing" else "listings"
  }

  class ListingsPage {
    var listings: seq<Listing>
    var deleteLoading: Option<int>
    var message: string

    constructor()
      ensures listings == [] && deleteLoading.None? && message == ""
    {
      listings := [];
      deleteLoading := None;
      message := "";
    }

    /** `fetchUserListings`: the returned rows, or nothing when the rows are
        missing or the query failed. */
    method FetchUserListings(outcome: Fetch<seq<Listing>>)
      modifies this
      ensures listings == if outcome.Returned? && outcome.data.Some? then outcome.data.value else []
      ensures deleteLoading == old(deleteLoading) && message == old(message)
    {
      match outcome {
        case Returned(Some(rows)) => listings := rows;
        case Returned(None) => listings := [];
        case Failed => listings := [];
      }
    }

    /** The start of `handleDeleteListing(id)`: declining the confirmation
        does nothing and sends nothing; otherwise the id is marked as being
        deleted and the request is sent. */
    method BeginDelete(id: int, confirmed: bool) returns (sent: bool)
      modifies this
      ensures sent == confirmed
      ensures deleteLoading == if confirmed then Some(id) else old(deleteLoading)
      ensures listings == old(listings) && message == old(message)
    {
      if !confirmed {
        return false;
      }
      deleteLoading := Some(id);
      sent := true;
    }

    /** The end of `handleDeleteListing(id)`: on success the listing is
        removed and the success message shown, on failure nothing changes
        but the pending mark, which is cleared on both paths. */
    method FinishDelete(id: int, succeeded: bool)
      modifies this
      ensures listings == if succeeded then RemoveListing(old(listings), id) else old(listings)
      ensures message == if succeeded then DeletedMessage else old(message)
      ensures deleteLoading.None?
    {
      if succeeded {
        listings := RemoveListing(listings, id);
        message := DeletedMessage;
      }
      deleteLoading := None;
    }

    /** The timer that hides the message. */
    method ClearMessage()
      modifies this
      ensures message == ""
      ensures listings == old(listings) && deleteLoading == old(deleteLoading)
    {
      message := "";
    }
  }
}
