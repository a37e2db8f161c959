/**
 * The drafts listing endpoint (pages/api/admin/drafts.js): GET lists every
 * draft newest first; any other method is refused.
 */
module DraftsApi {
  import opened Common
  import opened Store

  /** What `prisma.draft.findMany` yields: every row, or a failure. */
  datatype StoreRead = Rows(drafts: seq<Draft>) | StoreFailed(detail: string)

  datatype Body = Text(text: string) | DraftList(drafts: seq<Draft>) | ErrorJson(error: string)

  /** Status, the `Allow` header if set, and the body. */
  datatype ApiResponse = ApiResponse(status: int, allow: Option<seq<string>>, body: Body)

  const FetchFailed: string := "Failed to fetch drafts from the database."

  /** The handler; `read` is consulted only for a GET. */
  function Handle(httpMethod: string, read: StoreRead): (r: ApiResponse)
    ensures r.status == 405 <==> httpMethod != "GET"
    ensures r.status == 200 <==> httpMethod == "GET" && read.Rows?
    ensures r.status == 500 <==> httpMethod == "GET" && read.StoreFailed?
  {
    if httpMethod != "GET" then
      ApiResponse(405, Some(["GET"]), Text("Method " + httpMethod + " Not Allowed"))
    else match read
      case Rows(drafts) => ApiResponse(200, None, DraftList(SortByNewest(drafts, DraftTime)))
      case StoreFailed(_) => ApiResponse(500, None, ErrorJson(FetchFailed))
  }

  /**
   * Any method other than GET gets 405, `Allow: GET` and a text naming the
   * method, whatever the store holds.
   */
  lemma OtherMethodsRefused(httpMethod: string, read: StoreRead, other: StoreRead)
    requires httpMethod != "GET"
    ensures var r := Handle(httpMethod, read);
      && r == Handle(httpMethod, other)
      && r.allow == Some(["GET"])
      && r.body.Text?
      && r.body.text[7..|r.body.text| - 12] == httpMethod
  {
    var t := "Method " + httpMethod + " Not Allowed";
    assert t == "Method " + (httpMethod + " Not Allowed");
  }

  /** A GET returns every draft exactly once, newest first. */
  lemma ListingIsNewestFirst(drafts: seq<Draft>)
    ensures var r := Handle("GET", Rows(drafts));
      && r.body.DraftList?
      && NewestFirst(r.body.drafts, DraftTime)
      && multiset(r.body.drafts) == multiset(drafts)
      && |r.body.drafts| == |drafts|
  {
  }

  /** A store failure gives the same generic message whatever went wrong. */
  lemma FailureIsGeneric(d1: string, d2: string)
    ensures Handle("GET", StoreFailed(d1)) == Handle("GET", StoreFailed(d2))
    ensures Handle("GET", StoreFailed(d1)).body == ErrorJson(FetchFailed)
  {
  }
}
