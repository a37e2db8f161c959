/**
 * Feed ingestion (scripts/fetchReddit.js): read the hot listing of one
 * community and map every post to the topic fields handed to the store.
 */
module FetchReddit {
  import opened Common

  const Subreddit: string := "technology"
  const PostLimit: nat := 25

  function DecimalDigit(d: nat): (c: char)
    requires d < 10
    ensures '0' <= c <= '9' && c as int - '0' as int == d
  {
    ('0' as int + d) as char
  }

  /** A natural number in decimal, as a template literal writes it. */
  function Decimal(n: nat): (r: string)
    ensures |r| >= 1 && forall i :: 0 <= i < |r| ==> '0' <= r[i] <= '9'
  {
    if n < 10 then [DecimalDigit(n)] else Decimal(n / 10) + [DecimalDigit(n % 10)]
  }

  /** The value a string of decimal digits denotes: the inverse partner of Decimal. */
  function DecimalValue(s: string): nat
    requires forall i :: 0 <= i < |s| ==> '0' <= s[i] <= '9'
  {
    if s == [] then 0 else 10 * DecimalValue(s[..|s| - 1]) + (s[|s| - 1] as int - '0' as int)
  }

  lemma {:induction false} DecimalRoundTrip(n: nat)
    ensures DecimalValue(Decimal(n)) == n
  {
    if n >= 10 {
      DecimalRoundTrip(n / 10);
      var r := Decimal(n);
      assert r[..|r| - 1] == Decimal(n / 10);
    }
  }

  /** The listing endpoint for `Subreddit`, asking for `PostLimit` posts. */
  function FeedUrl(): string
  {
    "https://www.reddit.com/r/" + Subreddit + "/hot.json?limit=" + Decimal(PostLimit)
  }

  /** The request asks for 25 posts of the technology community. */
  lemma FeedUrlSpelledOut()
    ensures FeedUrl() == "https://www.reddit.com/r/technology/hot.json?limit=25"
  {
    assert Decimal(PostLimit) == "25";
  }

  /** The part of a permalink-based topic URL that precedes the permalink. */
  const RedditOrigin: string := "https://reddit.com"

  /** The fields of one `children[i].data` the script reads. */
  datatype Post = Post(title: string, subreddit: string, score: int, permalink: string)

  /**
   * The body of the listing reply after `response.json()`: unreadable, without
   * a `data.children` array, or that array's posts.
   */
  datatype FeedBody = Unreadable | Malformed | Listing(children: seq<Post>)

  type FeedReply = HttpReply<FeedBody>

  /** One topic as handed to the store. */
  datatype TopicInput = TopicInput(title: string, subreddit: string, score: int, url: string)

  function TopicOf(p: Post): TopicInput
  {
    TopicInput(p.title, p.subreddit, p.score, RedditOrigin + p.permalink)
  }

  /** `posts.map(post => ({ ... }))`. */
  function ToTopics(posts: seq<Post>): (r: seq<TopicInput>)
    ensures |r| == |posts|
    ensures forall i :: 0 <= i < |posts| ==> r[i] == TopicOf(posts[i])
  {
    seq(|posts|, i requires 0 <= i < |posts| => TopicOf(posts[i]))
  }

  /** The post's permalink, read back from a topic URL. */
  function PermalinkOf(url: string): Option<string>
  {
    if |url| >= |RedditOrigin| && url[..|RedditOrigin|] == RedditOrigin then Some(url[|RedditOrigin|..])
    else None
  }

  /**
   * Every topic keeps its post's title, community and score, in the
   * listing's order, and its URL is the permalink under the site's origin.
   */
  lemma ToTopicsSpec(posts: seq<Post>, i: nat)
    requires i < |posts|
    ensures var t := ToTopics(posts)[i];
      && t.title == posts[i].title && t.subreddit == posts[i].subreddit && t.score == posts[i].score
      && PermalinkOf(t.url) == Some(posts[i].permalink)
  {
    var u := RedditOrigin + posts[i].permalink;
    assert u[..|RedditOrigin|] == RedditOrigin;
    assert u[|RedditOrigin|..] == posts[i].permalink;
  }

  /** Two posts give equal topics exactly when they agree on the four fields the script reads. */
  lemma TopicOfInjective(p: Post, q: Post)
    ensures TopicOf(p) == TopicOf(q) <==> p == q
  {
    if TopicOf(p) == TopicOf(q) {
      var u := TopicOf(p).url;
      assert u[|RedditOrigin|..] == p.permalink;
      assert TopicOf(q).url[|RedditOrigin|..] == q.permalink;
    }
  }

  /** How the run ends: nothing handed on, or the batch handed to `saveTopics`. */
  datatype FetchResult = Failed | Handed(topics: seq<TopicInput>)

  /** The one request made, and how the run ends. */
  datatype FetchRun = FetchRun(request: string, result: FetchResult)

  /**
   * `main` of scripts/fetchReddit.js, up to the batch it hands to
   * `saveTopics`; `reply` is what the one fetch of the listing yields.
   */
  function Run(reply: FeedReply): (r: FetchRun)
    ensures r.request == FeedUrl()
    ensures r.result.Handed? <==> reply.Ok() && reply.body.Listing?
    ensures r.result.Handed? ==> r.result.topics == ToTopics(reply.body.children)
  {
    var result :=
      if !reply.Ok() then Failed
      else match reply.body
        case Unreadable => Failed
        case Malformed => Failed
        case Listing(children) => Handed(ToTopics(children));
    FetchRun(FeedUrl(), result)
  }
}
