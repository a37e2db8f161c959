/**
 * Label synthesis (scripts/selectTopics.js): read the newest topics, ask the
 * generative-AI service for labels with a bounded retry loop, validate the
 * answer and bulk-insert the labels with duplicate skipping.
 */
module SelectTopics {
  import opened Common
  import opened Store

  const MaxRetries: nat := 3
  /** The first back-off wait, in milliseconds. */
  const BaseDelay: nat := 2000
  /** How many of the newest topics are summarised. */
  const TopicSample: nat := 3

  const LabelInstruction: string :=
    "Based on the following list of article titles, generate 3-5 concise and distinct topic labels that summarize the key themes. Each label should be 3-5 words long.\n\nTitles:\n"

  // ---------------------------------------------------------------------------
  // Back-off schedule
  // ---------------------------------------------------------------------------

  function Pow2(n: nat): (r: nat)
    ensures r >= 1
  {
    if n == 0 then 1 else 2 * Pow2(n - 1)
  }

  /** The `n` waits a loop performs when `delay` starts at `d` and doubles after each wait. */
  function Delays(n: nat, d: int): seq<int>
  {
    if n == 0 then [] else [d] + Delays(n - 1, 2 * d)
  }

  /** The waits before the first `n` retries. */
  function Backoff(n: nat): seq<int>
  {
    Delays(n, BaseDelay)
  }

  /** One more retry appends the current delay, which has doubled once per earlier retry. */
  lemma {:induction false} DelaysSnoc(n: nat, d: int)
    ensures Delays(n + 1, d) == Delays(n, d) + [d * Pow2(n)]
  {
    if n > 0 {
      DelaysSnoc(n - 1, 2 * d);
      assert 2 * d * Pow2(n - 1) == d * Pow2(n);
    }
  }

  /** Retry i waits BaseDelay * 2^i, so each wait is twice the one before. */
  lemma {:induction false} BackoffSchedule(n: nat)
    ensures |Backoff(n)| == n
    ensures forall i :: 0 <= i < n ==> Backoff(n)[i] == BaseDelay * Pow2(i)
    ensures forall i :: 0 < i < n ==> Backoff(n)[i] == 2 * Backoff(n)[i - 1]
  {
    if n > 0 {
      BackoffSchedule(n - 1);
      DelaysSnoc(n - 1, BaseDelay);
      forall i | 0 < i < n ensures Backoff(n)[i] == 2 * Backoff(n)[i - 1] {
        assert Backoff(n)[i] == BaseDelay * Pow2(i);
        assert Backoff(n)[i - 1] == BaseDelay * Pow2(i - 1);
      }
    }
  }

  /** When every attempt fails, the script waits 2000 ms and then 4000 ms. */
  lemma FullBackoff()
    ensures Backoff(MaxRetries - 1) == [2000, 4000]
  {
    assert Delays(0, 8000) == [];
  }

  // ---------------------------------------------------------------------------
  // The retry loop
  // ---------------------------------------------------------------------------

  /** The position of the first successful reply, or |replies| when none is. */
  function FirstOk(replies: seq<AiReply>): (k: nat)
    ensures k <= |replies|
    ensures k < |replies| ==> replies[k].Ok()
    ensures forall j :: 0 <= j < k ==> !replies[j].Ok()
  {
    if replies == [] then 0
    else if replies[0].Ok() then 0
    else 1 + FirstOk(replies[1..])
  }

  /** How many fetches the loop makes: up to the first success, and never more than MaxRetries. */
  function CallsMade(replies: seq<AiReply>): nat
  {
    if FirstOk(replies) < MaxRetries then FirstOk(replies) + 1 else MaxRetries
  }

  /** How the loop ends: `break` with a successful response, or the error rethrown after the last attempt. */
  datatype Fetched = Succeeded(response: AiReply) | GaveUp(failure: AiReply)

  /**
   * The `while (attempt < maxRetries)` loop. `replies[i]` is what the i-th
   * fetch yields. Any failure, not only a 503, is retried while attempts
   * remain: the error thrown for a non-503 status is caught by the same loop
   * iteration. `sent` holds one request per fetch made, `waits` the delays slept.
   */
  method FetchWithRetry(request: AiRequest, replies: seq<AiReply>)
    returns (fetched: Fetched, sent: seq<AiRequest>, waits: seq<int>)
    requires |replies| == MaxRetries
    ensures 1 <= |sent| <= MaxRetries
    ensures |sent| == CallsMade(replies)
    ensures forall r :: r in sent ==> r == request
    ensures forall j :: 0 <= j < |sent| - 1 ==> !replies[j].Ok()
    ensures fetched.Succeeded? <==> FirstOk(replies) < MaxRetries
    ensures fetched.Succeeded? ==> fetched.response == replies[|sent| - 1] && fetched.response.Ok()
    ensures fetched.GaveUp? ==> |sent| == MaxRetries && fetched.failure == replies[MaxRetries - 1]
    ensures waits == Backoff(|sent| - 1)
  {
    var response: Option<AiReply> := None;
    var attempt: nat := 0;
    var delay: int := BaseDelay;
    sent, waits := [], [];
    while attempt < MaxRetries
      invariant attempt < MaxRetries
      invariant |sent| == attempt
      invariant forall r :: r in sent ==> r == request
      invariant delay == BaseDelay * Pow2(attempt)
      invariant waits == Backoff(attempt)
      invariant forall j :: 0 <= j < attempt ==> !replies[j].Ok()
    {
      // try
      var reply := replies[attempt];
      sent := sent + [request];
      var failed := false;
      if reply.Threw? {
        failed := true;
      } else {
        response := Some(reply);
        if reply.Ok() {
          break;
        } else if reply.status == 503 && attempt < MaxRetries - 1 {
          DelaysSnoc(attempt, BaseDelay);
          waits := waits + [delay];
          delay := delay * 2;
          attempt := attempt + 1;
        } else {
          failed := true;
        }
      }
      // catch
      if failed {
        if attempt < MaxRetries - 1 {
          DelaysSnoc(attempt, BaseDelay);
          waits := waits + [delay];
          delay := delay * 2;
          attempt := attempt + 1;
        } else {
          fetched := GaveUp(reply);
          return;
        }
      }
    }
    fetched := Succeeded(response.value);
  }

  // ---------------------------------------------------------------------------
  // Reading and validating the labels
  // ---------------------------------------------------------------------------

  /** Why an answer yields no label list, or the list it yields. */
  datatype LabelsRead = BodyUnreadable | NoContent | Malformed | Labels(texts: seq<string>)

  /** `parsedContent.labels || []` for a parsed value other than null. */
  function LabelsField(j: Json): Json
  {
    if j.JObj? && "labels" in j.fields && Truthy(j.fields["labels"]) then j.fields["labels"] else JArr([])
  }

  predicate AllStrings(items: seq<Json>)
  {
    forall i :: 0 <= i < |items| ==> items[i].JStr?
  }

  /** The strings of an array of JSON strings; turning them back into JSON gives the array. */
  function Texts(items: seq<Json>): (r: seq<string>)
    requires AllStrings(items)
    ensures |r| == |items| && forall i :: 0 <= i < |items| ==> items[i] == JStr(r[i])
  {
    seq(|items|, i requires 0 <= i < |items| => items[i].s)
  }

  /** Lines 100-119: read the body, extract the content, parse it and validate the labels. */
  function ReadLabels(body: AiBody, parse: string -> Option<Json>): (r: LabelsRead)
    ensures r.Labels? ==>
      && body.Envelope? && Present(body.content)
      && parse(body.content.value).Some? && parse(body.content.value).value != JNull
      && var field := LabelsField(parse(body.content.value).value);
         && field.JArr? && |field.items| == |r.texts|
         && forall i :: 0 <= i < |r.texts| ==> field.items[i] == JStr(r.texts[i])
  {
    match body
    case Unreadable => BodyUnreadable
    case Envelope(content) =>
      if !Present(content) then NoContent
      else
        var parsed := parse(content.value);
        // JSON.parse throws, or reading `.labels` of null throws
        if parsed.None? || parsed.value == JNull then Malformed
        else
          var labels := LabelsField(parsed.value);
          if labels.JArr? && AllStrings(labels.items) then Labels(Texts(labels.items)) else Malformed
  }

  /**
   * The validation rule for a parsed object: without `labels`, or with a
   * falsy one, there are no labels; an array whose elements are all strings
   * gives exactly those strings in order; any other truthy `labels` value, or
   * an array with a non-string element, is rejected.
   */
  lemma LabelValidation(content: string, parse: string -> Option<Json>, fields: map<string, Json>)
    requires content != "" && parse(content) == Some(JObj(fields))
    ensures var read := ReadLabels(Envelope(Some(content)), parse);
      && ("labels" !in fields || !Truthy(fields["labels"]) ==> read == Labels([]))
      && ("labels" in fields && fields["labels"].JArr? && AllStrings(fields["labels"].items) ==>
            read.Labels? && |read.texts| == |fields["labels"].items|
            && forall i :: 0 <= i < |read.texts| ==> fields["labels"].items[i] == JStr(read.texts[i]))
      && ("labels" in fields && Truthy(fields["labels"]) && !fields["labels"].JArr? ==> read == Malformed)
      && ("labels" in fields && fields["labels"].JArr? && !AllStrings(fields["labels"].items) ==> read == Malformed)
  {
    if "labels" !in fields || !Truthy(fields["labels"]) {
      assert Texts([]) == [];
    }
  }

  /**
   * An answer yields a label list only when its body is readable, its content
   * is a non-empty text, and that text parses to something other than null.
   */
  lemma LabelsNeedParsableContent(body: AiBody, parse: string -> Option<Json>)
    ensures ReadLabels(body, parse).Labels? ==>
      && body.Envelope? && Present(body.content)
      && parse(body.content.value).Some? && parse(body.content.value).value != JNull
    ensures body.Unreadable? ==> ReadLabels(body, parse) == BodyUnreadable
    ensures body.Envelope? && !Present(body.content) ==> ReadLabels(body, parse) == NoContent
  {
  }

  // ---------------------------------------------------------------------------
  // The whole run
  // ---------------------------------------------------------------------------

  function LabelPrompt(titles: seq<string>): string
  {
    LabelInstruction + JoinLines(titles)
  }

  /** The prompt ends with the titles, one per line, in the order given. */
  lemma PromptListsTitles(titles: seq<string>)
    requires titles != [] && NoNewline(titles)
    ensures var p := LabelPrompt(titles);
      |p| >= |LabelInstruction| && p[..|LabelInstruction|] == LabelInstruction
      && SplitLines(p[|LabelInstruction|..]) == titles
  {
    var p := LabelPrompt(titles);
    assert p[|LabelInstruction|..] == JoinLines(titles);
    SplitJoin(titles, '\n');
  }

  datatype LabelRun =
    | MissingApiKey
    | NoTopics
    | RequestFailed(failure: AiReply)
    | Unusable(reason: LabelsRead)
    | NoLabels
    | Saved(count: nat)

  /**
   * `main` of scripts/selectTopics.js. `replies` are the service's answers to
   * successive fetches, `parse` is `JSON.parse`, `now` the store's clock.
   */
  method Run(db: Db, apiKey: Option<string>, replies: seq<AiReply>, parse: string -> Option<Json>, now: int)
    returns (outcome: LabelRun, sent: seq<AiRequest>, waits: seq<int>)
    requires db.Valid() && |replies| == MaxRetries
    modifies db
    ensures db.Valid()
    ensures db.topics == old(db.topics) && db.drafts == old(db.drafts) && db.nextDraftId == old(db.nextDraftId)
    ensures |sent| <= MaxRetries
    ensures !Present(apiKey) ==> outcome == MissingApiKey && sent == [] && waits == []
    ensures Present(apiKey) && old(db.topics) == [] ==> outcome == NoTopics && sent == [] && waits == []
    ensures Present(apiKey) && old(db.topics) != [] ==>
      var recent := TakeNewest(old(db.topics), TopicSample, TopicTime);
      var request := AiRequest(GeminiUrl(apiKey.value), LabelPrompt(TopicTitles(recent)));
      && |sent| == CallsMade(replies)
      && (forall r :: r in sent ==> r == request)
      && waits == Backoff(|sent| - 1)
      && (FirstOk(replies) >= MaxRetries ==> outcome == RequestFailed(replies[MaxRetries - 1]))
      && (FirstOk(replies) < MaxRetries ==>
            var read := ReadLabels(replies[FirstOk(replies)].body, parse);
            && (!read.Labels? ==> outcome == Unusable(read))
            && (read.Labels? && read.texts == [] ==> outcome == NoLabels)
            && (read.Labels? && read.texts != [] ==>
                  var admitted := Admit(LabelTexts(old(db.labels)), read.texts, db.labelClash);
                  && outcome == Saved(|admitted|)
                  && db.labels == old(db.labels) + StampLabels(admitted, old(db.nextLabelId), now)))
    ensures !outcome.Saved? ==> db.labels == old(db.labels) && db.nextLabelId == old(db.nextLabelId)
  {
    sent, waits := [], [];
    if !Present(apiKey) {
      outcome := MissingApiKey;
      return;
    }
    var recent := TakeNewest(db.topics, TopicSample, TopicTime);
    TakeNewestSpec(db.topics, TopicSample, TopicTime);
    if |recent| == 0 {
      outcome := NoTopics;
      return;
    }
    var request := AiRequest(GeminiUrl(apiKey.value), LabelPrompt(TopicTitles(recent)));
    var fetched;
    fetched, sent, waits := FetchWithRetry(request, replies);
    if fetched.GaveUp? {
      outcome := RequestFailed(fetched.failure);
      return;
    }
    var read := ReadLabels(fetched.response.body, parse);
    if !read.Labels? {
      outcome := Unusable(read);
      return;
    }
    if |read.texts| > 0 {
      var count := db.CreateManyLabels(read.texts, now);
      outcome := Saved(count);
    } else {
      outcome := NoLabels;
    }
  }
}
