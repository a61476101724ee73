/**
 * The video listing (getAllVideos): an aggregation pipeline assembled stage by
 * stage from the query string, the pagination options read from it, and the
 * reply built from the page the paginator returns. The stages are given a
 * meaning over the video records so that who sees what can be stated; the
 * case-insensitive regular-expression search itself is a parameter.
 */
module Listing {
  import opened Base
  import opened Videos

  /** `{ [field]: direction }` with direction 1 (ascending) or -1 (descending). */
  datatype SortOrder = SortOrder(field: string, direction: int)

  datatype Stage =
    | MatchOwner(owner: UserId)             // `$match: { owner }`
    | MatchPublished(onlyPublished: bool)   // `$match: { isPublished: true }`, or `$match: {}` when false
    | MatchSearch(query: string)            // `$match: { $or: [title ~ query, description ~ query] }`
    | SortBy(order: SortOrder)              // `$sort`

  /** The query-string parameters the handler reads. */
  datatype ListingQuery = ListingQuery(
    page: Option<string>,
    limit: Option<string>,
    query: Option<string>,
    sortBy: Option<string>,
    sortType: Option<string>,
    userId: Option<string>)

  /** The requester may see unpublished videos only when listing their own. */
  predicate ListsOwn(q: ListingQuery, viewer: Option<UserId>) {
    viewer.Some? && Truthy(q.userId) && viewer.value == q.userId.value
  }

  /** The sort stage: the requested field, descending only for sortType "desc"; newest first by default. */
  function SortOf(q: ListingQuery): (o: SortOrder)
    ensures o.direction == 1 || o.direction == -1
    ensures Truthy(q.sortBy) ==> o.field == q.sortBy.value && (o.direction == -1 <==> q.sortType == Some("desc"))
    ensures !Truthy(q.sortBy) ==> o == SortOrder("createdAt", -1)
  {
    if Truthy(q.sortBy) then SortOrder(q.sortBy.value, if q.sortType == Some("desc") then -1 else 1)
    else SortOrder("createdAt", -1)
  }

  /** The pipeline getAllVideos hands to the aggregation, or the error it throws before building it. */
  function Pipeline(q: ListingQuery, viewer: Option<UserId>): Result<seq<Stage>> {
    if Truthy(q.userId) && !IsValidObjectId(q.userId.value) then Err(ApiError(400, "Invalid userId format"))
    else
      Ok((if Truthy(q.userId) then [MatchOwner(q.userId.value)] else [])
         + [MatchPublished(!ListsOwn(q, viewer))]
         + (if Truthy(q.query) then [MatchSearch(q.query.value)] else [])
         + [SortBy(SortOf(q))])
  }

  /** getAllVideos' pipeline construction: an empty array and one push per stage. */
  method BuildListingPipeline(q: ListingQuery, viewer: Option<UserId>) returns (r: Result<seq<Stage>>)
    ensures r == Pipeline(q, viewer)
  {
    var pipeline: seq<Stage> := [];
    if Truthy(q.userId) {
      if !IsValidObjectId(q.userId.value) {
        return Err(ApiError(400, "Invalid userId format"));
      }
      pipeline := pipeline + [MatchOwner(q.userId.value)];
    }
    var onlyPublished := true;
    if viewer.Some? && Truthy(q.userId) && viewer.value == q.userId.value {
      onlyPublished := false;
    }
    ghost var ownerStages := if Truthy(q.userId) then [MatchOwner(q.userId.value)] else [];
    assert pipeline == ownerStages;
    pipeline := pipeline + [MatchPublished(onlyPublished)];
    ghost var searchStages := if Truthy(q.query) then [MatchSearch(q.query.value)] else [];
    if Truthy(q.query) {
      pipeline := pipeline + [MatchSearch(q.query.value)];
    }
    assert pipeline == ownerStages + [MatchPublished(!ListsOwn(q, viewer))] + searchStages;
    pipeline := pipeline + [SortBy(SortOf(q))];
    return Ok(pipeline);
  }

  /** The shape of every pipeline built: 2 to 4 stages, an owner match first exactly when a user id was given, the publication match next, the sort last. */
  lemma PipelineShape(q: ListingQuery, viewer: Option<UserId>)
    ensures Pipeline(q, viewer).Err? <==> Truthy(q.userId) && !IsValidObjectId(q.userId.value)
    ensures Pipeline(q, viewer).Ok? ==>
      var p := Pipeline(q, viewer).value;
      var o := if Truthy(q.userId) then 1 else 0;
      && |p| == 2 + o + (if Truthy(q.query) then 1 else 0)
      && (p[0].MatchOwner? <==> Truthy(q.userId))
      && (p[0].MatchOwner? ==> p[0].owner == q.userId.value)
      && p[o] == MatchPublished(!ListsOwn(q, viewer))
      && p[|p| - 1] == SortBy(SortOf(q))
      && (Truthy(q.query) ==> p[o + 1] == MatchSearch(q.query.value))
      && (forall k :: 0 <= k < |p| - 1 ==> !p[k].SortBy?)
  {
  }

  // ---------------------------------------------------------------------------
  // What the match stages let through
  // ---------------------------------------------------------------------------

  /**
   * Whether a stage lets `v` through; `matches(pattern, text)` is the
   * case-insensitive regular-expression test. The owner stage compares
   * ObjectIds, so the two ids are compared by their keys.
   */
  predicate Admits(s: Stage, v: Video, matches: (string, string) -> bool) {
    match s
    case MatchOwner(o) => ObjectIdKey(v.owner) == ObjectIdKey(o)
    case MatchPublished(only) => !only || v.isPublished
    case MatchSearch(pattern) => matches(pattern, v.title) || (v.description.Some? && matches(pattern, v.description.value))
    case SortBy(_) => true
  }

  /** The owner stage admits the same videos whatever the case of the hex id's letters. */
  lemma OwnerStageIgnoresHexCase(id: string, v: Video, matches: (string, string) -> bool)
    requires IsHexId(id)
    ensures Admits(MatchOwner(id), v, matches) <==> Admits(MatchOwner(Lower(id)), v, matches)
  {
    ObjectIdKeyIgnoresCase(id);
  }

  predicate AdmittedBy(p: seq<Stage>, v: Video, matches: (string, string) -> bool) {
    forall k :: 0 <= k < |p| ==> Admits(p[k], v, matches)
  }

  /** The records a pipeline keeps, in store order (the order the sort stage imposes is not modelled). */
  function Selected(p: seq<Stage>, store: seq<Video>, matches: (string, string) -> bool): (r: seq<Video>)
    ensures |r| <= |store|
    ensures forall v :: v in r <==> v in store && AdmittedBy(p, v, matches)
  {
    if store == [] then []
    else
      var rest := Selected(p, store[1..], matches);
      assert forall v :: v in store <==> v == store[0] || v in store[1..];
      if AdmittedBy(p, store[0], matches) then [store[0]] + rest else rest
  }

  /** Without a requester, or when listing someone else's videos, only published videos are listed. */
  lemma OthersSeeOnlyPublished(q: ListingQuery, viewer: Option<UserId>, store: seq<Video>, matches: (string, string) -> bool)
    requires !ListsOwn(q, viewer) && Pipeline(q, viewer).Ok?
    ensures forall v :: v in Selected(Pipeline(q, viewer).value, store, matches) ==> v.isPublished
  {
    var p := Pipeline(q, viewer).value;
    PipelineShape(q, viewer);
    var o := if Truthy(q.userId) then 1 else 0;
    forall v | v in Selected(p, store, matches)
      ensures v.isPublished
    {
      assert Admits(p[o], v, matches);
    }
  }

  /** A user listing their own videos without a search gets exactly their own videos, published or not. */
  lemma OwnerSeesAllOwn(q: ListingQuery, viewer: UserId, store: seq<Video>, matches: (string, string) -> bool)
    requires q.userId == Some(viewer) && IsValidObjectId(viewer) && !Truthy(q.query)
    ensures Pipeline(q, Some(viewer)).Ok?
    ensures forall v :: v in Selected(Pipeline(q, Some(viewer)).value, store, matches) <==>
      v in store && ObjectIdKey(v.owner) == ObjectIdKey(viewer)
  {
    var p := Pipeline(q, Some(viewer)).value;
    assert p == [MatchOwner(viewer), MatchPublished(false), SortBy(SortOf(q))];
    forall v | v in store
      ensures AdmittedBy(p, v, matches) <==> ObjectIdKey(v.owner) == ObjectIdKey(viewer)
    {
      assert Admits(p[0], v, matches) <==> ObjectIdKey(v.owner) == ObjectIdKey(viewer);
    }
  }

  /** A listing for a user id contains only that user's videos. */
  lemma ListingByUserIsTheirs(q: ListingQuery, viewer: Option<UserId>, store: seq<Video>, matches: (string, string) -> bool)
    requires Truthy(q.userId) && Pipeline(q, viewer).Ok?
    ensures forall v :: v in Selected(Pipeline(q, viewer).value, store, matches) ==>
      ObjectIdKey(v.owner) == ObjectIdKey(q.userId.value)
  {
    var p := Pipeline(q, viewer).value;
    forall v | v in Selected(p, store, matches)
      ensures ObjectIdKey(v.owner) == ObjectIdKey(q.userId.value)
    {
      assert Admits(p[0], v, matches);
    }
  }

  // ---------------------------------------------------------------------------
  // Pagination options and the reply
  // ---------------------------------------------------------------------------

  /** `{ page: parseInt(page, 10), limit: parseInt(limit, 10) }`; `None` stands for NaN. */
  datatype PageOptions = PageOptions(page: Option<int>, limit: Option<int>)

  /** The destructuring defaults (page 1, limit 10) apply only to absent parameters. */
  function PageOptionsOf(q: ListingQuery): (o: PageOptions)
    ensures q.page.None? ==> o.page == Some(1)
    ensures q.limit.None? ==> o.limit == Some(10)
  {
    PageOptions(if q.page.None? then Some(1) else ParseInt10(q.page.value),
                if q.limit.None? then Some(10) else ParseInt10(q.limit.value))
  }

  /** A page number or limit written as a plain numeral is read back as that number. */
  lemma PageOptionsOfNumerals(q: ListingQuery, page: nat, limit: nat)
    requires q.page == Some(NatToString(page)) && q.limit == Some(NatToString(limit))
    ensures PageOptionsOf(q) == PageOptions(Some(page), Some(limit))
  {
    ParseIntOfNatToString(page);
    ParseIntOfNatToString(limit);
  }

  /** The 200 reply of getAllVideos. */
  datatype ListingReply = ListingReply(docs: seq<Video>, message: string)

  /** `docs` is the page the paginator returned, `None` when it returned nothing. */
  function Respond(docs: Option<seq<Video>>): (r: ListingReply)
    ensures r.docs == [] <==> docs.None? || docs.value == []
    ensures r.docs != [] ==> Some(r.docs) == docs && r.message == "Videos fetched successfully"
    ensures r.docs == [] ==> r.message == "No videos found"
  {
    if docs.None? || |docs.value| == 0 then ListingReply([], "No videos found")
    else ListingReply(docs.value, "Videos fetched successfully")
  }
}
