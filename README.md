# gocommend poll engine and rating input, in Dafny

This project models the collaborative-filtering core of gocommend, a Go
recommendation engine that keeps all of its state in Redis:

- **the poll algorithm** (`algorithms_poll.go`): user-user and item-item
  similarity by the Jaccard coefficient of liked sets, recommendations from the
  liked items of the most similar users scored by a similarity-weighted
  prediction, and the `updateData` / `updateAllData` orchestration;
- **the input layer** (`input.go`): `Import`, which routes a rating to `like` or
  `dislike`, those two write paths, and `Update`, which runs the update steps
  for one user and one item.

Redis is modelled as a value, `SetStore.Snapshot`: named sets and named sorted
sets (member to score). A key is a `Namespace.Key`. Its constructors carry the
collection name, so keys of different kinds or collections never collide.
`SetStore.Store` is the client: a class whose `data` field each command method
reads or reassigns.

A store call can fail only where the source checks its error. Which checked calls
fail is fixed by the store's `faults` set. Each engine method is proved equal to
a specification function of the old store, its result and its new store
(`UserSimilarityOutcome`, `RecommendationOutcome`, `RecordOutcome`, ...). The
properties the source promises are proved as lemmas about those functions.

Modules: `Namespace` (key names), `SetStore` (store and commands), `Similarity`
(`jaccardCoefficient`, `updateUserSimilarity`, `updateItemSimilarity`),
`Recommendation` (`predictFor`, `updateRecommendationFor`), `Orchestration`
(`updateData`, `updateAllData`), `Preference` (`Import`, `like`, `dislike`,
`Update`).

Two behaviours of the source are modelled exactly as written:

- **The scratch set holds only the last neighbour's likes.**
  `updateRecommendationFor` issues one `SUNIONSTORE temp userLiked(v)` per
  neighbour `v`. Each call overwrites `temp`, so only the last neighbour's liked
  items become candidates (`RecommendationUsesLastNeighbourOnly`).
- **The item pass in `updateData` never reports failure.** With no item id, the
  item-similarity pass ignores the error of every `updateItemSimilarity` call.

## Model

| member | source | states |
|---|---|---|
| `Similarity.Jaccard` | algorithms_poll.go:89-104 | the score is the size of the intersection over the size of the union, and lies in [0, 1] whenever one of the sets is non-empty |
| `Similarity.UnionSize` | algorithms_poll.go:101-102 | the union size the source computes as `len1 + len2 - inter` is the size of the union, and is positive when a set is non-empty |
| `Similarity.JaccardSymmetric` | algorithms_poll.go:89-104 | swapping the two sets does not change the score |
| `Similarity.JaccardSelf` | algorithms_poll.go:89-104 | a non-empty set scores 1 against itself |
| `Similarity.JaccardDisjoint` | algorithms_poll.go:89-104 | disjoint sets score 0 |
| `Similarity.JaccardExample` | algorithms_poll.go:11 | the example of the comment: u1 polls i1 i2 i3 and u2 polls i2 i3, so the similarity is 2/3 |
| `Similarity.ItemLikedKeySeq` | algorithms_poll.go:23-27 | the key slice built by `append` names exactly the liker sets of the user's liked items |
| `Similarity.UserLikedKeySeq` | algorithms_poll.go:60-64 | the key slice built by `append` names exactly the liked sets of the item's likers |
| `Similarity.CoRatersMeaning` | algorithms_poll.go:23-29 | a user is in the SUNION of the liker sets if and only if they like one of the user's liked items |
| `Similarity.CoRatedMeaning` | algorithms_poll.go:60-66 | an item is in the SUNION of the likers' liked sets if and only if some liker of the item likes it |
| `Similarity.RankUsers` | algorithms_poll.go:35-43 | after the ZADD loop the user's similarity ranking holds the Jaccard score of every co-rater except the user; a union of exactly one member writes nothing |
| `Similarity.RankItems` | algorithms_poll.go:75-83 | after the ZADD loop the item's similarity ranking holds the Jaccard score of every co-rated item except the item itself |
| `Similarity.UpdateUserSimilarity` | algorithms_poll.go:12-46 | result and new store follow updateUserSimilarity: a failed SMEMBERS or SUNION is returned and nothing is written; no likes means success and no write; otherwise one ZADD per co-rater |
| `Similarity.UpdateItemSimilarity` | algorithms_poll.go:49-86 | the same for updateItemSimilarity, including the early return when the union has exactly one member |
| `Similarity.UserSimilarityNoLikes` | algorithms_poll.go:19-21 | a user without likes gets success and an unchanged store |
| `Similarity.UserSimilarityNeverRanksSelf` | algorithms_poll.go:35-39 | the user's own entry is never written, and a union of one member writes nothing |
| `Similarity.UserSimilarityScoresCoRaters` | algorithms_poll.go:23-43 | every entry that changes belongs to another user who likes one of the user's items, and holds the Jaccard score of the two liked sets |
| `Similarity.UserSimilarityFrame` | algorithms_poll.go:12-46 | no set and no other ranking changes, entries outside the co-rater union are kept, and scores in [0, 1] stay in [0, 1] |
| `Similarity.CoRatersIncludeSelf` | algorithms_poll.go:37 | when likes are indexed both ways, a user with likes is among their own co-raters, so a union of one member means nobody else shares a liked item |
| `Similarity.ItemSimilarityNoLikers` | algorithms_poll.go:56-58 | an item without likers gets success and an unchanged store |
| `Similarity.ItemSimilarityNeverRanksSelf` | algorithms_poll.go:71-79 | the item's own entry is never written, and a union of one member writes nothing |
| `Similarity.ItemSimilarityScoresCoRated` | algorithms_poll.go:60-83 | every entry that changes belongs to another item liked by one of the item's likers, and holds the Jaccard score of the two liker sets |
| `Similarity.ItemSimilarityFrame` | algorithms_poll.go:49-86 | no set and no other ranking changes, entries outside the co-rated union are kept, and scores in [0, 1] stay in [0, 1] |
| `Similarity.ItemSimilarityExample` | algorithms_poll.go:48-86 | with i1 liked by u1 and u2 and i2 liked by u2 and u3, updating i1 ranks i2 with score 1/3 and nothing else |
| `SetStore.Store.ZRevRange` | algorithms_poll.go:109 | ZREVRANGE returns the requested number of members by descending score, without repeats |
| `SetStore.RangeCount` | algorithms_poll.go:109 | `ZREVRANGE 0 stop` on a ranking of n members returns exactly the ranks whose index, counted from the end when `stop` is negative, is at most `stop`; that is a prefix of the ranking, of length at most n |
| `SetStore.StoreTwice` | algorithms_poll.go:117-120 | a second SUNIONSTORE into the same key overwrites the first |
| `Recommendation.SimilaritySumRemove` | algorithms_poll.go:136 | the similarity sum over the likers does not depend on the order they are taken in |
| `Recommendation.SimilaritySumBounds` | algorithms_poll.go:136 | with similarities in [0, 1], the sum over n likers lies in [0, n] |
| `Recommendation.UniformSum` | algorithms_poll.go:136 | when every liker has the same similarity s, the sum over n likers is n times s |
| `Recommendation.Predict` | algorithms_poll.go:134-141 | the prediction (similarity sum over the number of likers) lies in [0, 1] when every similarity does |
| `Recommendation.PredictUniform` | algorithms_poll.go:134-141 | the prediction is an average: likers of equal similarity s predict s |
| `Recommendation.PredictFor` | algorithms_poll.go:134-141 | the loop that adds up the likers' similarities and divides by their count (SCARD) returns the prediction, and NaN (0/0) exactly when the item has no likers |
| `Recommendation.LikedItemsHaveLikers` | algorithms_poll.go:121-125 | when likes are indexed both ways, every item a neighbour likes has at least that neighbour as a liker |
| `Recommendation.FillScratch` | algorithms_poll.go:117-120 | after the SUNIONSTORE loop the scratch set holds exactly the last neighbour's liked items |
| `Recommendation.ScoreCandidates` | algorithms_poll.go:123-127 | after the ZADD loop every candidate with a liker has its predicted score in the recommendation ranking; a candidate without likers, predicted NaN, is refused by the store and left as it was |
| `Recommendation.UpdateRecommendationFor` | algorithms_poll.go:107-131 | the neighbours are the top-ranked similar users, and result and new store follow updateRecommendationFor, including the ZREVRANGE and SDIFF error paths |
| `Recommendation.RecommendationWithoutNeighbours` | algorithms_poll.go:109-113 | a user with no similarity entries gets no neighbours, and nothing is written |
| `Recommendation.NeighbourCount` | algorithms_poll.go:109 | with MAX_NEIGHBORS of at least 1, the neighbour count is the smaller of the ranking's size and MAX_NEIGHBORS, and every neighbour comes from the ranking |
| `Recommendation.RecommendationExcludesLiked` | algorithms_poll.go:121-127 | every recommendation entry that changes is for an item the last neighbour likes, the user does not, and someone likes, and it holds that item's prediction |
| `Recommendation.RecommendationUsesLastNeighbourOnly` | algorithms_poll.go:117-121 | an item the last neighbour does not like is never scored, even if an earlier neighbour likes it |
| `Recommendation.RecommendationScoresEveryCandidate` | algorithms_poll.go:121-141 | when likes are indexed both ways no prediction is NaN: a successful call scores every item the last neighbour likes and the user does not |
| `Recommendation.RecommendationDropsScratch` | algorithms_poll.go:129 | a call that found neighbours deletes the scratch set, whether it succeeded or not; any other call changes nothing |
| `Recommendation.RecommendationFrame` | algorithms_poll.go:107-131 | only the user's scratch set and recommendation ranking change |
| `Recommendation.RecommendationScoresBounded` | algorithms_poll.go:123-141 | with similarities and earlier recommendations in [0, 1], the recommendation scores stay in [0, 1] |
| `Orchestration.ItemSimilarityLocal` | algorithms_poll.go:164-169 | an item's similarity update gives the same result whatever other items were updated before it |
| `Orchestration.UpdateItemSimilarities` | algorithms_poll.go:164-169 | the best-effort pass leaves every item's ranking as its own update would, changes no set, and records each item's outcome |
| `Orchestration.ItemStepSets` | algorithms_poll.go:164-174 | the item step changes no set, and with no item id it always succeeds |
| `Orchestration.UpdateData` | algorithms_poll.go:155-176 | user similarity, then recommendations, then the item step, each stopping the call at its first error, except the item pass when no item id is given |
| `Orchestration.UpdateDataGates` | algorithms_poll.go:157-169 | a failed user-similarity update is returned and leaves the store unchanged; with no item id, any failure comes from user similarity or from the recommendation step |
| `Orchestration.UpdateDataSets` | algorithms_poll.go:155-176 | the sets after updateData are those the recommendation step left |
| `Orchestration.UpdateDataFrame` | algorithms_poll.go:155-176 | updateData changes no set except the user's scratch set, so it keeps likes indexed both ways when they were, and, when no scratch set existed before, it leaves none behind |
| `Orchestration.UpdateAllData` | algorithms_poll.go:143-153 | a failed read of the user set is returned; otherwise each user is updated at most once, in a run that stops at the first error and covers every user when it succeeds; no set other than scratch sets changes, and likes stay indexed both ways when they were |
| `Preference.AssertIntHidesMembership` | input.go:67 | on the int64 reply of SISMEMBER, the `rs.(int)` assertion gives 0 whether or not the user is a member, while an int reply would keep the answer |
| `Preference.RecordAsWrittenOutcome` | input.go:59-99 | like/dislike exactly as written: a failed SISMEMBER is returned with nothing written; otherwise the popularity counter grows by one on every call, new rater or not |
| `Preference.Record` | input.go:59-78 | result and new store follow like/dislike with the corrected membership test: SISMEMBER, a ZINCRBY only for a new rater, then two SADDs, each checked error returned at once |
| `Preference.Like` | input.go:59-78 | like is the corrected record path for the like sets and the most-liked ranking |
| `Preference.Dislike` | input.go:80-99 | dislike is the corrected record path for the dislike sets and the most-disliked ranking |
| `Preference.Import` | input.go:12-29 | a positive rate is recorded as a like, any other rate as a dislike, both with the corrected counter |
| `Preference.AddBothFrame` | input.go:70-75 | the two SADDs add the item to the user's set and the user to the item's set, and change nothing else |
| `Preference.RecordFrame` | input.go:59-78 | only the user's rated set, the item's rated-by set and the popularity ranking of that kind can change |
| `Preference.RecordReadFailure` | input.go:64-66 | a failed SISMEMBER is returned and nothing is written |
| `Preference.RecordCountsDistinctRaters` | input.go:64-69 | with the corrected membership test, the item's popularity grows by one exactly when the user was not yet among its raters, and no other counter moves |
| `Preference.RecordIndexes` | input.go:70-75 | after a successful call the item is in the user's set and the user in the item's set, and the two-way index is kept |
| `Preference.RecordIdempotent` | input.go:59-78 | with the corrected counter, recording the same rating again changes nothing, whichever calls of the second attempt fail, and succeeds under the same faults |
| `Preference.RecordKeepsOtherKind` | input.go:59-99 | a like never touches the dislike sets or the most-disliked ranking, and a dislike never touches the like sets or the most-liked ranking |
| `Preference.RecordNoRollback` | input.go:67-72 | when the first SADD fails after a new rater was counted, the call fails and the increment stays |
| `Preference.RecordAsWrittenDiffersOnRepeat` | input.go:64-75 | as written and as corrected agree on everything for a new rater; for a repeated rating they return the same result and sets, and the as-written counter is one higher |
| `Preference.LikeTwiceExample` | input.go:64-75 | the same like recorded twice counts 2 as written and 1 once corrected |
| `Preference.PlannedSteps` | input.go:41-54 | a user id schedules exactly similarity and then recommendations, first; an item id schedules the Wilson score, last; nothing else is scheduled and nothing twice |
| `Preference.Update` | input.go:31-57 | an empty collection fails with the emptyCollection error before any step; otherwise the planned steps run in order up to the first failure, which is returned |

## Left out

- Redis transport, connection handling and reply decoding are not modelled. A store call fails only when its call is listed in the store's `faults`. Calls whose error the source ignores (ZADD, ZINCRBY, SUNIONSTORE, DEL, SINTER and SCARD in `jaccardCoefficient`, and SCARD in `predictFor`) always succeed.
- A checked call fails or succeeds the same way every time it is issued with the same arguments. So the SMEMBERS of `updateData`'s item pass cannot fail once `updateUserSimilarity` has read the same key, although the code's fallback to an empty list is modelled.
- Scores are `real`, not `float64`, so rounding is not modelled. The one non-finite value the engine can compute is kept: `predictFor` on an item without likers divides a zero sum by a zero count, which gives NaN (`Float64.NaN`). Infinities cannot arise, because the sum over no likers is 0.
- Redis refuses NaN as a ZADD score ("value is not a valid float"), and `updateRecommendationFor` ignores that error. So an item without likers gets no recommendation entry. This rule of Redis is stated in `SetStore.Store.ZAdd`, not derived from the modelled files.
- `similaritySum` has no body in the modelled files. It is modelled as the sum of the user's similarity scores over the item's likers, a liker without a similarity entry counting 0.
- The order ZREVRANGE gives to members with equal scores is left open. The neighbour list is any list that `TopRanked` accepts, returned as a ghost out-parameter.
- The order in which SMEMBERS and SUNION replies are iterated is left open. Every loop over such a reply takes its members in an arbitrary order.
- `MAX_NEIGHBORS` is a parameter (`maxNeighbors`) rather than the package constant. Its value is not part of the modelled files.
- How the collection's user set (`allUser`) is populated is not part of this model.
- Logging (`log.Println`) is not modelled.
- Preference.Record: the popularity counter follows the corrected membership test (a ZINCRBY only for a new rater). As written, `rs.(int)` makes the source bump it on every call; `Preference.RecordAsWrittenOutcome` models that, see Findings.
- Preference.Like: uses the corrected counter of `Preference.Record`, not the as-written one.
- Preference.Dislike: uses the corrected counter of `Preference.Record`, not the as-written one.
- Preference.Import: uses the corrected counter of `Preference.Record`, not the as-written one.
- Preference.RecordCountsDistinctRaters: a property of the corrected counter; the as-written code counts every call (`Preference.RecordAsWrittenDiffersOnRepeat`).
- Preference.RecordIdempotent: a property of the corrected counter; as written, a repeated rating bumps the counter again.
- Preference.Update: `updateSimilarityFor`, the base `updateRecommendationFor` and `updateWilsonScore` belong to the base algorithm type, which is not part of this model. Their outcomes are the parameter `run`, and their effects on the store are not modelled.
- Orchestration.UpdateData: the best-effort item pass is specified by the rankings and sets it leaves (`ItemPassDone`), not by equality of whole stores.
- Orchestration.UpdateAllData: the iteration order over the user set is left open, so the contract names the users processed (`order`) rather than a fixed sequence.

## Findings

| source | as written | input that shows it | evidently intended | confidence | as-written member | corrected member |
|---|---|---|---|---|---|---|
| input.go:67 | `rs.(int)` on the SISMEMBER reply, which the Redis client returns as `int64`, fails and yields 0, so ZINCRBY runs on every like | user u1 likes item i1 twice: the most-liked score of i1 becomes 2 | count each liker once, incrementing only when SISMEMBER says the user is not yet a liker | not executed | `Preference.RecordAsWrittenOutcome` | `Preference.RecordOutcome` |
| input.go:88 | the same assertion in `dislike`, so ZINCRBY on the most-disliked ranking runs on every dislike | user u1 dislikes item i1 twice: the most-disliked score of i1 becomes 2 | count each disliker once | not executed | `Preference.RecordAsWrittenOutcome` | `Preference.RecordOutcome` |

`Preference.RecordAsWrittenDiffersOnRepeat` and `Preference.LikeTwiceExample` prove the
as-written behaviour. `Preference.RecordCountsDistinctRaters` and
`Preference.RecordIdempotent` prove the corrected one, which `Record`, `Like`,
`Dislike` and `Import` use.
