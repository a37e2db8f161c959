/**
 * Image enrichment (scripts/generateImage.js): pick the newest pending draft
 * that has no image yet, search the image service with its prompt and push
 * the first result's URL onto the draft's `images`.
 */
module GenerateImage {
  import opened Common
  import opened Store
  import opened UriEncoding

  const UnsplashSearch: string := "https://api.unsplash.com/search/photos"

  /**
   * The body of an image-search reply after `response.json()`: either that
   * call throws, or `result.results?.[0]?.urls?.regular` yields a text or nothing.
   */
  datatype ImageBody = Unreadable | Results(firstRegular: Option<string>)

  type ImageReply = HttpReply<ImageBody>

  /** A GET to the image service, with its `Authorization` header. */
  datatype ImageRequest = ImageRequest(url: string, authorization: string)

  /** The `where` filter: still pending and without images. */
  predicate NeedsImage(d: Draft)
  {
    d.status == Pending && d.images == []
  }

  function Eligible(ds: seq<Draft>): (r: seq<Draft>)
    ensures forall d :: d in r <==> d in ds && NeedsImage(d)
  {
    if ds == [] then []
    else
      assert ds == [ds[0]] + ds[1..];
      (if NeedsImage(ds[0]) then [ds[0]] else []) + Eligible(ds[1..])
  }

  /** `findFirst({ where: { status: 'pending', images: { isEmpty: true } }, orderBy: { createdAt: 'desc' } })`. */
  function SelectDraft(ds: seq<Draft>): Option<Draft>
  {
    Newest(Eligible(ds), DraftTime)
  }

  /**
   * A draft is selected exactly when some draft needs an image; the selected
   * one is pending, has no images, and no draft that needs an image is newer.
   */
  lemma SelectDraftSpec(ds: seq<Draft>)
    ensures SelectDraft(ds).None? <==> forall d :: d in ds ==> !NeedsImage(d)
    ensures SelectDraft(ds).Some? ==>
      var d := SelectDraft(ds).value;
      && d in ds && d.status == Pending && d.images == []
      && forall e :: e in ds && NeedsImage(e) ==> e.createdAt <= d.createdAt
  {
    NewestSpec(Eligible(ds), DraftTime);
    if Eligible(ds) != [] {
      assert Eligible(ds)[0] in Eligible(ds);
    }
  }

  /** The query string: the encoded prompt, one result, landscape orientation. */
  function SearchQuery(prompt: string): string
  {
    "query=" + EncodeUriComponent(prompt) + "&per_page=1&orientation=landscape"
  }

  function SearchUrl(prompt: string): string
  {
    UnsplashSearch + "?" + SearchQuery(prompt)
  }

  /**
   * Whatever the prompt, the query has exactly the three parameters
   * `query`, `per_page=1` and `orientation=landscape`, and the value of
   * `query` decodes back to the prompt.
   */
  lemma SearchQueryParameters(prompt: string)
    ensures var parts := Split(SearchQuery(prompt), '&');
      && parts == ["query=" + EncodeUriComponent(prompt), "per_page=1", "orientation=landscape"]
      && DecodeUriComponent(parts[0][6..]) == Some(prompt)
  {
    var enc := EncodeUriComponent(prompt);
    var parts := ["query=" + enc, "per_page=1", "orientation=landscape"];
    QueryFree(enc);
    QueryJoin(enc);
    SplitJoin(parts, '&');
    assert parts[0][6..] == enc;
    EncodeRoundTrip(prompt);
  }

  /** An encoded value never contains '&', so the three parameters are separator-free. */
  lemma QueryFree(enc: string)
    requires forall i :: 0 <= i < |enc| ==> UriSafe(enc[i])
    ensures Free(["query=" + enc, "per_page=1", "orientation=landscape"], '&')
  {
    var q := "query=" + enc;
    forall i | 0 <= i < |q| ensures q[i] != '&' {
      if i >= 6 {
        assert q[i] == enc[i - 6];
      }
    }
  }

  lemma QueryJoin(enc: string)
    ensures Join(["query=" + enc, "per_page=1", "orientation=landscape"], '&')
         == "query=" + enc + "&per_page=1&orientation=landscape"
  {
    var q := "query=" + enc;
    var parts := [q, "per_page=1", "orientation=landscape"];
    var fixed := "per_page=1&orientation=landscape";
    FixedParameters();
    assert parts[1..] == ["per_page=1", "orientation=landscape"];
    assert Join(parts, '&') == q + ['&'] + fixed;
    assert ['&'] + fixed == "&per_page=1&orientation=landscape";
  }

  lemma FixedParameters()
    ensures Join(["per_page=1", "orientation=landscape"], '&') == "per_page=1&orientation=landscape"
  {
    var ps := ["per_page=1", "orientation=landscape"];
    assert ps[1..] == ["orientation=landscape"];
  }

  datatype ImageRun =
    | MissingAccessKey
    | NothingToEnrich
    | NoPrompt(draftId: nat)
    | SearchFailed(draftId: nat)
    | NoImage(draftId: nat)
    | Enriched(draftId: nat, url: string)

  /** How the run ends once the request for draft `id` has been answered with `reply`. */
  function Settle(id: nat, reply: ImageReply): (r: ImageRun)
    ensures r.SearchFailed? || r.NoImage? || r.Enriched?
    ensures r.draftId == id
    ensures r.SearchFailed? <==> !reply.Ok() || reply.body.Unreadable?
    ensures r.Enriched? <==> reply.Ok() && reply.body.Results? && Present(reply.body.firstRegular)
    ensures r.Enriched? ==> r.url == reply.body.firstRegular.value && r.url != ""
  {
    if !reply.Ok() || reply.body.Unreadable? then SearchFailed(id)
    else if !Present(reply.body.firstRegular) then NoImage(id)
    else Enriched(id, reply.body.firstRegular.value)
  }

  /**
   * A successful run gives the selected draft exactly one image, the found
   * URL, and changes nothing else; every draft keeps its images as a prefix,
   * and the enriched draft no longer needs an image.
   */
  lemma EnrichmentEffect(ds: seq<Draft>, url: string)
    requires IncreasingIds(ds) && SelectDraft(ds).Some?
    ensures var d := SelectDraft(ds).value;
      var r := AppendImage(ds, d.id, url);
      && |r| == |ds|
      && (forall k :: 0 <= k < |ds| && ds[k].id == d.id ==> ds[k] == d && r[k] == d.(images := [url]) && !NeedsImage(r[k]))
      && (forall k :: 0 <= k < |ds| && ds[k].id != d.id ==> r[k] == ds[k])
      && (forall k :: 0 <= k < |ds| ==> r[k].images[..|ds[k].images|] == ds[k].images)
  {
    SelectDraftSpec(ds);
    var d := SelectDraft(ds).value;
    var i :| 0 <= i < |ds| && ds[i] == d;
    forall k | 0 <= k < |ds| && ds[k].id == d.id ensures ds[k] == d {
      assert k == i;
    }
  }

  /**
   * `main` of scripts/generateImage.js. `reply` is the image service's answer
   * to the one search request, if one is made.
   */
  method Run(db: Db, accessKey: Option<string>, reply: ImageReply) returns (outcome: ImageRun, sent: seq<ImageRequest>)
    requires db.Valid()
    modifies db
    ensures db.Valid()
    ensures db.topics == old(db.topics) && db.labels == old(db.labels)
    ensures db.nextLabelId == old(db.nextLabelId) && db.nextDraftId == old(db.nextDraftId)
    ensures |sent| <= 1
    ensures !Present(accessKey) ==> outcome == MissingAccessKey && sent == []
    ensures Present(accessKey) ==>
      var chosen := SelectDraft(old(db.drafts));
      && (chosen.None? ==> outcome == NothingToEnrich && sent == [])
      && (chosen.Some? && !Present(chosen.value.imagePrompt) ==> outcome == NoPrompt(chosen.value.id) && sent == [])
      && (chosen.Some? && Present(chosen.value.imagePrompt) ==>
            && sent == [ImageRequest(SearchUrl(chosen.value.imagePrompt.value), "Client-ID " + accessKey.value)]
            && outcome == Settle(chosen.value.id, reply))
    ensures outcome.Enriched? ==> db.drafts == AppendImage(old(db.drafts), outcome.draftId, outcome.url)
    ensures !outcome.Enriched? ==> db.drafts == old(db.drafts)
  {
    sent := [];
    if !Present(accessKey) {
      outcome := MissingAccessKey;
      return;
    }
    var chosen := SelectDraft(db.drafts);
    if chosen.None? {
      outcome := NothingToEnrich;
      return;
    }
    var draft := chosen.value;
    if !Present(draft.imagePrompt) {
      outcome := NoPrompt(draft.id);
      return;
    }
    sent := [ImageRequest(SearchUrl(draft.imagePrompt.value), "Client-ID " + accessKey.value)];
    if !reply.Ok() || reply.body.Unreadable? {
      outcome := SearchFailed(draft.id);
      return;
    }
    var imageUrl := reply.body.firstRegular;
    if !Present(imageUrl) {
      outcome := NoImage(draft.id);
      return;
    }
    SelectDraftSpec(db.drafts);
    var found := db.PushImage(draft.id, imageUrl.value);
    outcome := Enriched(draft.id, imageUrl.value);
  }
}
