/** The two row types the pages work on. Timestamps are milliseconds since
    the epoch; prices are exact decimal amounts, as the listing form reads
    them with `parseFloat`. */
module Records {

  /** A row of the `listings` table. */
  datatype Listing = Listing(
    id: int,
    userId: int,
    title: string,
    description: string,
    price: real,
    category: string,
    location: string,
    createdAt: int)

  /** A row of the `messages` table: a buyer's inquiry about one listing. */
  datatype Message = Message(
    id: int,
    listingId: int,
    sellerId: int,
    buyerName: string,
    buyerEmail: string,
    content: string,
    readBySeller: bool,
    createdAt: int)
}
