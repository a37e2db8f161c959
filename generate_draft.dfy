/**
 * Draft synthesis (scripts/generateDraft.js): take the newest topic label and
 * the five newest topics, ask the generative-AI service for a structured
 * article, store it as one pending draft, then send a best-effort e-mail.
 */
module GenerateDraft {
  import opened Common
  import opened Store

  /** `findMany({ take: 5, ... })` for the context headlines. */
  const SampleSize: nat := 5

  /** `samplePosts.map(p => `- ${p.title}`)`. */
  function Bullets(titles: seq<string>): (r: seq<string>)
    ensures |r| == |titles|
    ensures forall i :: 0 <= i < |titles| ==> r[i] == "- " + titles[i]
  {
    seq(|titles|, i requires 0 <= i < |titles| => "- " + titles[i])
  }

  /** The headline block of the prompt: one bulleted line per sampled topic. */
  function SampleTitles(posts: seq<Topic>): string
  {
    JoinLines(Bullets(TopicTitles(posts)))
  }

  /**
   * The headline block has one line per sampled topic, in sample order, and
   * stripping the bullet from a line gives the topic's title back.
   */
  lemma SampleTitlesLines(posts: seq<Topic>)
    requires posts != []
    requires forall p :: p in posts ==> '\n' !in p.title
    ensures var lines := SplitLines(SampleTitles(posts));
      && |lines| == |posts|
      && forall i :: 0 <= i < |posts| ==> lines[i] == "- " + posts[i].title && lines[i][2..] == posts[i].title
  {
    var bullets := Bullets(TopicTitles(posts));
    forall k | 0 <= k < |bullets| ensures '\n' !in bullets[k] {
      assert posts[k] in posts;
      forall j | 2 <= j < |bullets[k]| ensures bullets[k][j] != '\n' {
        assert bullets[k][j] == posts[k].title[j - 2];
      }
    }
    SplitJoin(bullets, '\n');
  }

  const PromptHead: string :=
    "\n      You are an expert content creator and tech journalist. Your task is to generate a draft for a blog post based on a main topic and a list of related, recent headlines. The tone should be informative, engaging, and neutral.\n\n      Main Topic: \""

  const PromptMiddle: string :=
    "\"\n\n      Sample Headlines for Context:\n      "

  const PromptTail: string :=
    "\n\n      Generate the content for the following fields:\n"
    + "      - title: A compelling, SEO-friendly blog post title.\n"
    + "      - summary: A concise, one-paragraph summary of the article (2-4 sentences).\n"
    + "      - body: The full article content, written in clear paragraphs. It should be around 300-500 words.\n"
    + "      - imagePrompt: A short, simple list of 2-4 keywords for searching a stock photo library like Unsplash. The keywords should be concrete and visually descriptive. For example: \"data technology global network\", \"abstract blue gold\", or \"futuristic circuit board\".\n"
    + "    "

  /** The generation prompt for a label and a headline block. */
  function DraftPrompt(topicLabel: string, sampleTitles: string): string
  {
    PromptHead + topicLabel + PromptMiddle + sampleTitles + PromptTail
  }

  /** The label and the headline block sit at fixed places in the prompt and can be read back from it. */
  lemma PromptCarriesContext(topicLabel: string, sampleTitles: string)
    ensures var p := DraftPrompt(topicLabel, sampleTitles);
      var at := |PromptHead| + |topicLabel| + |PromptMiddle|;
      && |p| == at + |sampleTitles| + |PromptTail|
      && p[|PromptHead|..|PromptHead| + |topicLabel|] == topicLabel
      && p[at..at + |sampleTitles|] == sampleTitles
  {
    var p := DraftPrompt(topicLabel, sampleTitles);
    var at := |PromptHead| + |topicLabel| + |PromptMiddle|;
    assert p == (PromptHead + topicLabel) + (PromptMiddle + (sampleTitles + PromptTail));
    assert p[|PromptHead|..|PromptHead| + |topicLabel|] == (PromptHead + topicLabel)[|PromptHead|..];
    assert p == (PromptHead + topicLabel + PromptMiddle) + (sampleTitles + PromptTail);
    assert p[at..at + |sampleTitles|] == (sampleTitles + PromptTail)[..|sampleTitles|];
  }

  /** The four fields of a generated article as the store receives them. */
  datatype DraftContent = DraftContent(title: string, summary: string, body: string, imagePrompt: Option<string>)

  /** The JSON object the service is asked to produce for an article (its response schema). */
  function ContentJson(c: DraftContent): Json
  {
    JObj(map[
      "title" := JStr(c.title),
      "summary" := JStr(c.summary),
      "body" := JStr(c.body),
      "imagePrompt" := if c.imagePrompt.Some? then JStr(c.imagePrompt.value) else JNull])
  }

  predicate TextField(fields: map<string, Json>, key: string)
  {
    key in fields && fields[key].JStr?
  }

  /**
   * What `prisma.draft.create` accepts from `draftData`: an object whose
   * `title`, `summary` and `body` are strings; `imagePrompt` is a string,
   * null or absent (a nullable column). Anything else is refused by the store.
   */
  function DraftContentOf(j: Json): (r: Option<DraftContent>)
    ensures r.Some? <==>
      && j.JObj?
      && TextField(j.fields, "title") && TextField(j.fields, "summary") && TextField(j.fields, "body")
      && ("imagePrompt" !in j.fields || j.fields["imagePrompt"].JStr? || j.fields["imagePrompt"].JNull?)
  {
    if !j.JObj? then None
    else
      var f := j.fields;
      if !(TextField(f, "title") && TextField(f, "summary") && TextField(f, "body")) then None
      else if "imagePrompt" !in f || f["imagePrompt"].JNull? then
        Some(DraftContent(f["title"].s, f["summary"].s, f["body"].s, None))
      else if f["imagePrompt"].JStr? then
        Some(DraftContent(f["title"].s, f["summary"].s, f["body"].s, Some(f["imagePrompt"].s)))
      else None
  }

  /** Reading an article back from the JSON the schema describes gives the same article. */
  lemma ContentRoundTrip(c: DraftContent)
    ensures DraftContentOf(ContentJson(c)) == Some(c)
  {
  }

  /** Fields outside the four are ignored. */
  lemma ExtraFieldsIgnored(fields: map<string, Json>, key: string, v: Json)
    requires key !in {"title", "summary", "body", "imagePrompt"}
    ensures DraftContentOf(JObj(fields[key := v])) == DraftContentOf(JObj(fields))
  {
    var g := fields[key := v];
    assert forall k :: k in {"title", "summary", "body", "imagePrompt"} ==> (k in g <==> k in fields) && (k in g ==> g[k] == fields[k]);
  }

  /** How reading the service's reply can end. */
  datatype DraftRead =
    | RequestFailed
    | BodyUnreadable
    | NoContent
    | Unparsable
    | Rejected
    | Content(content: DraftContent)

  /** The reply handling of lines 135-158: status, envelope, `JSON.parse`, store validation. */
  function ReadDraft(reply: AiReply, parse: string -> Option<Json>): (r: DraftRead)
    ensures r == RequestFailed <==> !reply.Ok()
    ensures r.Content? ==>
      && reply.Ok() && reply.body.Envelope? && Present(reply.body.content)
      && parse(reply.body.content.value).Some?
      && DraftContentOf(parse(reply.body.content.value).value) == Some(r.content)
  {
    if !reply.Ok() then RequestFailed
    else if reply.body.Unreadable? then BodyUnreadable
    else if !Present(reply.body.content) then NoContent
    else
      var parsed := parse(reply.body.content.value);
      if parsed.None? then Unparsable
      else
        var c := DraftContentOf(parsed.value);
        if c.None? then Rejected else Content(c.value)
  }

  /**
   * An article is obtained exactly from a successful reply whose text parses
   * to an acceptable object, and it is the article that object describes;
   * a reply carrying the JSON of an article yields that article.
   */
  lemma ReadDraftSpec(reply: AiReply, parse: string -> Option<Json>, c: DraftContent)
    ensures ReadDraft(reply, parse).Content? <==>
      && reply.Ok() && reply.body.Envelope? && Present(reply.body.content)
      && parse(reply.body.content.value).Some?
      && DraftContentOf(parse(reply.body.content.value).value).Some?
    ensures ReadDraft(reply, parse).Content? ==>
      Some(ReadDraft(reply, parse).content) == DraftContentOf(parse(reply.body.content.value).value)
    ensures (reply.Ok() && reply.body.Envelope? && Present(reply.body.content)
             && parse(reply.body.content.value) == Some(ContentJson(c)))
        ==> ReadDraft(reply, parse) == Content(c)
  {
    ContentRoundTrip(c);
  }

  // ---------------------------------------------------------------------------
  // Notification
  // ---------------------------------------------------------------------------

  datatype Mail = Mail(from: string, to: string, subject: string)

  const SubjectPrefix: string := "\U{2705} New Draft Ready for Review: \""

  /** The mail announcing `d`, sent from and to the configured account. */
  function DraftMail(user: string, d: Draft): Mail
  {
    Mail("\"Automation Blog Bot\" <" + user + ">", user, SubjectPrefix + d.title + "\"")
  }

  /** The subject quotes the draft's title, and the mail goes back to the sender's own address. */
  lemma MailNamesDraft(user: string, d: Draft)
    ensures var m := DraftMail(user, d);
      && m.to == user
      && m.subject[..|SubjectPrefix|] == SubjectPrefix
      && m.subject[|SubjectPrefix|..|m.subject| - 1] == d.title
      && m.from[|m.from| - |user| - 1..|m.from| - 1] == user
  {
    var m := DraftMail(user, d);
    assert m.subject == SubjectPrefix + (d.title + "\"");
    assert m.from == "\"Automation Blog Bot\" <" + (user + ">");
  }

  /** What became of the notification. */
  datatype Notice = Skipped | Sent(mail: Mail) | SendFailed(mail: Mail)

  /**
   * `sendNotificationEmail`: skipped without both credentials; otherwise one
   * mail, whose delivery (`delivered`) only decides how the notice reads.
   */
  function Notify(user: Option<string>, pass: Option<string>, d: Draft, delivered: bool): (n: Notice)
    ensures n.Skipped? <==> !Present(user) || !Present(pass)
    ensures !n.Skipped? ==> n.mail == DraftMail(user.value, d)
    ensures n.Sent? <==> Present(user) && Present(pass) && delivered
  {
    if !Present(user) || !Present(pass) then Skipped
    else if delivered then Sent(DraftMail(user.value, d))
    else SendFailed(DraftMail(user.value, d))
  }

  // ---------------------------------------------------------------------------
  // The script
  // ---------------------------------------------------------------------------

  datatype DraftRun =
    | MissingApiKey
    | NoLabel
    | NoTopics
    | Failed(reason: DraftRead)
    | Created(draft: Draft, notice: Notice)

  /** The five newest topics: their first is the newest topic of all. */
  lemma SampleStartsWithNewest(topics: seq<Topic>)
    requires topics != []
    ensures var sample := TakeNewest(topics, SampleSize, TopicTime);
      && 1 <= |sample| <= SampleSize
      && Newest(topics, TopicTime) == Some(sample[0])
  {
    TakeNewestSpec(topics, SampleSize, TopicTime);
  }

  /**
   * `main` of scripts/generateDraft.js. `reply` is the service's answer to
   * the one request, `parse` stands for `JSON.parse`, `delivered` for the
   * mail transport's success, `now` for the store's clock.
   */
  method Run(db: Db, apiKey: Option<string>, reply: AiReply, parse: string -> Option<Json>,
             emailUser: Option<string>, emailPass: Option<string>, delivered: bool, now: int)
    returns (outcome: DraftRun, sent: seq<AiRequest>)
    requires db.Valid()
    modifies db
    ensures db.Valid()
    ensures db.topics == old(db.topics) && db.labels == old(db.labels) && db.nextLabelId == old(db.nextLabelId)
    ensures |sent| <= 1
    ensures !Present(apiKey) ==> outcome == MissingApiKey && sent == []
    ensures Present(apiKey) && old(db.labels) == [] ==> outcome == NoLabel && sent == []
    ensures Present(apiKey) && old(db.labels) != [] && old(db.topics) == [] ==> outcome == NoTopics && sent == []
    ensures Present(apiKey) && old(db.labels) != [] && old(db.topics) != [] ==>
      var newest := Newest(old(db.labels), LabelTime).value;
      var sample := TakeNewest(old(db.topics), SampleSize, TopicTime);
      && sent == [AiRequest(GeminiUrl(apiKey.value), DraftPrompt(newest.text, SampleTitles(sample)))]
      && (!ReadDraft(reply, parse).Content? ==> outcome == Failed(ReadDraft(reply, parse)))
      && (ReadDraft(reply, parse).Content? ==>
            var c := ReadDraft(reply, parse).content;
            && outcome.Created?
            && outcome.draft == Draft(old(db.nextDraftId), c.title, c.summary, c.body, c.imagePrompt,
                                      [], Pending, Newest(old(db.topics), TopicTime).value.id, now)
            && outcome.notice == Notify(emailUser, emailPass, outcome.draft, delivered))
    ensures outcome.Created? ==> db.drafts == old(db.drafts) + [outcome.draft] && db.nextDraftId == old(db.nextDraftId) + 1
    ensures !outcome.Created? ==> db.drafts == old(db.drafts) && db.nextDraftId == old(db.nextDraftId)
  {
    sent := [];
    if !Present(apiKey) {
      outcome := MissingApiKey;
      return;
    }
    var candidate := Newest(db.labels, LabelTime);
    NewestSpec(db.labels, LabelTime);
    if candidate.None? {
      outcome := NoLabel;
      return;
    }
    var samplePosts := TakeNewest(db.topics, SampleSize, TopicTime);
    TakeNewestSpec(db.topics, SampleSize, TopicTime);
    if |samplePosts| == 0 {
      outcome := NoTopics;
      return;
    }
    SampleStartsWithNewest(db.topics);
    var prompt := DraftPrompt(candidate.value.text, SampleTitles(samplePosts));
    sent := [AiRequest(GeminiUrl(apiKey.value), prompt)];
    var read := ReadDraft(reply, parse);
    if !read.Content? {
      outcome := Failed(read);
      return;
    }
    var c := read.content;
    var newDraft := db.CreateDraft(NewDraft(c.title, c.summary, c.body, c.imagePrompt, Pending, samplePosts[0].id), now);
    var notice := Notify(emailUser, emailPass, newDraft, delivered);
    outcome := Created(newDraft, notice);
  }
}
