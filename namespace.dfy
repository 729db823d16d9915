/** Key names of one collection (the `collectionSet` of the source).

    Every key is qualified by its collection and, where it belongs to one user or
    one item, by that id. Keys of different kinds, collections or ids are distinct
    datatype values, so the naming is collision-free by construction. */
module Namespace {

  datatype Key =
    | UserLiked(collection: string, id: string)        // items a user liked
    | UserDisliked(collection: string, id: string)     // items a user disliked
    | ItemLiked(collection: string, id: string)        // users who liked an item
    | ItemDisliked(collection: string, id: string)     // users who disliked an item
    | UserSimilarity(collection: string, id: string)   // neighbour user -> Jaccard score
    | ItemSimilarity(collection: string, id: string)   // neighbour item -> Jaccard score
    | UserTemp(collection: string, id: string)         // scratch set of one recommendation pass
    | RecommendedItem(collection: string, id: string)  // candidate item -> predicted score
    | MostLiked(collection: string)                    // item -> number of distinct likers
    | MostDisliked(collection: string)                 // item -> number of distinct dislikers
    | AllUser(collection: string)                      // every user of the collection

  /** The per-user set a like (`liked`) or a dislike writes to. */
  function Rated(c: string, liked: bool, user: string): Key {
    if liked then UserLiked(c, user) else UserDisliked(c, user)
  }

  /** The per-item set a like (`liked`) or a dislike writes to. */
  function RatedBy(c: string, liked: bool, item: string): Key {
    if liked then ItemLiked(c, item) else ItemDisliked(c, item)
  }

  /** The collection-wide popularity ranking of likes (`liked`) or dislikes. */
  function Popularity(c: string, liked: bool): Key {
    if liked then MostLiked(c) else MostDisliked(c)
  }
}
