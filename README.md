# Automated blog pipeline: a verified model

The system turns a community news feed into blog drafts that a human
reviews. Batch stages share one relational store:

- **Feed ingestion** reads the hot posts of one community. It maps each post to a topic record.
- **Label synthesis** sends the three newest topic titles to a generative-AI service. It retries a failing call with doubling back-off. It validates the returned label list and bulk-inserts it, skipping duplicates.
- **Draft synthesis** takes the newest label and the five newest topics. It asks the AI service for a structured article and stores it as one pending draft. Then it sends a best-effort e-mail.
- **Image enrichment** picks the newest pending draft that has no image. It URL-encodes that draft's image prompt and searches an image service with it. It appends the first result's URL to the draft.

An admin endpoint lists all drafts, newest first.

The model has these modules:

- `Common`: optional values and HTTP replies, and parsed JSON with JavaScript truthiness.
- `Common` also holds newline joining and splitting, and the store's newest-first order as a stable sort.
- `Store`: the records, and the `Db` class, whose sequence fields are the tables. Its methods are the store writes the stages make.
- `UriEncoding`: `encodeURIComponent` (UTF-8 plus `%XX` escapes), with a decoder as its inverse.
- `SelectTopics`, `GenerateDraft`, `GenerateImage`: one `Run` method per script.
- `FetchReddit`, `DraftsApi`: pure functions.

Every network reply, the mail transport's result, `JSON.parse` and the store's clock are parameters of the model.

Two behaviours of the code are easy to misread, and the model follows the code in both:

- Label synthesis retries every failed attempt while attempts remain, whatever the status, not only a 503. The error thrown for any other status is caught by the same loop iteration (scripts/selectTopics.js:77-90).
- Image enrichment picks the newest eligible draft (`createdAt: 'desc'`), not the oldest one waiting.

The check after the retry loop (scripts/selectTopics.js:95-98) can never fire. `FetchWithRetry` proves that the loop ends either with a successful response or by rethrowing.

## Model

| member | source | states |
|---|---|---|
| `Common.GeminiUrl` | scripts/selectTopics.js:38 | The URL is the fixed model endpoint, then `?key=`, then the key, which can be read back as its suffix |
| `Common.SplitJoin` | scripts/selectTopics.js:33 | Joining newline-free lines with a separator and splitting on it gives the same lines back |
| `Common.SortByNewest` | pages/api/admin/drafts.js:12-16 | `orderBy: { createdAt: 'desc' }` yields every record exactly once (same multiset), ordered newest first |
| `Common.TakeNewestSpec` | scripts/selectTopics.js:20-25 | `take: n` newest-first yields min(n, size) records of the table, newest first |
| `Common.TakeNewestKeepsNewest` | scripts/generateDraft.js:82-85 | No record left out by `take` is newer than a record kept |
| `Common.NewestSpec` | scripts/generateDraft.js:72-74 | `findFirst` newest-first finds a record exactly when the table is non-empty, and no record is newer than it |
| `Store.TopicTitles` | scripts/selectTopics.js:33 | The titles, one per topic, in the topics' order |
| `Store.Admit` | scripts/selectTopics.js:124-127 | The inserted candidates are a subsequence of the batch: none is invented and their order is kept |
| `Store.AdmitComplete` | scripts/selectTopics.js:124-127 | Every candidate that clashes neither with a stored label nor with an earlier candidate of the batch is inserted |
| `Store.AdmitSound` | scripts/selectTopics.js:124-127 | `skipDuplicates` inserts only candidates of the batch, at most as many as given, none clashing with a stored label |
| `Store.AdmitPairwise` | scripts/selectTopics.js:124-127 | No two candidates inserted from one batch clash with each other |
| `Store.TablePairwise` | scripts/selectTopics.js:124-127 | A label table with no clashing pair still has none after the insert |
| `Store.AdmitIdempotent` | scripts/selectTopics.js:124-127 | Inserting the same batch again right after inserts nothing |
| `Store.DuplicateInBatch` | scripts/selectTopics.js:124-127 | Two equal new candidates in one batch give one inserted label |
| `Store.AppendImageSpec` | scripts/generateImage.js:69-76 | A push adds the URL at the end of that draft's images and changes no other field and no other draft |
| `Store.Db.CreateManyLabels` | scripts/selectTopics.js:123-128 | The label table grows by exactly the admitted labels, in batch order, with fresh increasing ids; the count returned is their number; the store invariant, including that no two stored labels clash, is kept |
| `Store.Db.CreateDraft` | scripts/generateDraft.js:150-159 | Exactly one draft is appended, with a fresh id, no images and the given fields; other tables are unchanged |
| `Store.Db.PushImage` | scripts/generateImage.js:69-76 | The update succeeds exactly when a draft with that id exists, and then only that draft gains the URL; otherwise nothing changes |
| `SelectTopics.BackoffSchedule` | scripts/selectTopics.js:44-87 | Retry i waits 2000 * 2^i ms, so each wait is twice the one before |
| `SelectTopics.FullBackoff` | scripts/selectTopics.js:42-44 | With three attempts that all fail, the waits are 2000 ms and then 4000 ms |
| `SelectTopics.FirstOk` | scripts/selectTopics.js:70-71 | The first attempt that succeeds; every earlier attempt failed |
| `SelectTopics.FetchWithRetry` | scripts/selectTopics.js:41-92 | The loop makes at most three identical requests and stops at the first success. It succeeds iff some attempt of the three succeeds, and then returns that response. Otherwise it rethrows the third failure. The waits are the doubling back-off schedule |
| `SelectTopics.ReadLabels` | scripts/selectTopics.js:100-119 | Labels are returned only from a readable body with non-empty content that parses to a non-null value, and they are exactly the strings of its `labels` array, in order |
| `SelectTopics.LabelValidation` | scripts/selectTopics.js:108-119 | A missing or falsy `labels` gives no labels. An array of strings gives those strings in order. Any other value, or an array with a non-string element, is rejected |
| `SelectTopics.LabelsNeedParsableContent` | scripts/selectTopics.js:100-106 | Labels come only from a readable body with non-empty content that parses to a non-null value; an unreadable body or empty content ends the run |
| `SelectTopics.PromptListsTitles` | scripts/selectTopics.js:33-36 | The prompt is the fixed instruction followed by the titles, which split back line by line in order |
| `SelectTopics.Run` | scripts/selectTopics.js:12-138 | Without a key or without topics, no request is sent. Otherwise the three newest titles go to the retrying request. With no success, nothing is stored. An unusable answer or an empty list stores nothing. A non-empty list stores exactly the admitted labels and reports their count. Topics and drafts never change |
| `UriEncoding.EncodeUriComponent` | scripts/generateImage.js:45 | Every output character is unreserved or part of a `%XX` escape with upper-case hex |
| `UriEncoding.EncodeRoundTrip` | scripts/generateImage.js:45 | Decoding the encoded text (percent-decoding, then UTF-8) gives the original text back |
| `UriEncoding.EncodeInjective` | scripts/generateImage.js:45 | Different prompts give different queries |
| `UriEncoding.EncodeKeepsUnescaped` | scripts/generateImage.js:45 | Text made only of unreserved characters is left as it is |
| `GenerateImage.Eligible` | scripts/generateImage.js:20-26 | A draft is a candidate exactly when it is in the table, pending and without images |
| `GenerateImage.SelectDraftSpec` | scripts/generateImage.js:20-35 | A draft is chosen exactly when some draft is pending and imageless. The chosen one is such a draft, and no such draft is newer |
| `GenerateImage.SearchQueryParameters` | scripts/generateImage.js:45-46 | For any prompt the query has exactly the parameters `query`, `per_page=1` and `orientation=landscape`, and `query` decodes back to the prompt |
| `GenerateImage.Settle` | scripts/generateImage.js:55-65 | For the chosen draft, the search fails iff the reply is not ok or its body is unreadable. An image is found iff a non-empty first URL is present, and that URL is the one returned |
| `GenerateImage.EnrichmentEffect` | scripts/generateImage.js:69-76 | After a successful run the chosen draft has exactly the found URL as its images and no longer needs an image. All other drafts are unchanged. Every draft keeps its earlier images as a prefix |
| `GenerateImage.Run` | scripts/generateImage.js:10-85 | No request without an access key, without an eligible draft, or when its prompt is empty. Otherwise one authorised search is made for the encoded prompt. A failed request, an unreadable body or no result leaves the store unchanged, so the draft stays eligible. A found URL is pushed onto that draft |
| `GenerateDraft.Bullets` | scripts/generateDraft.js:93 | Each headline line is the title prefixed with `- `, in sample order |
| `GenerateDraft.SampleTitlesLines` | scripts/generateDraft.js:93 | The headline block has one line per sampled topic, and stripping the bullet gives the title back |
| `GenerateDraft.PromptCarriesContext` | scripts/generateDraft.js:96-109 | The label and the headline block sit at fixed places in the prompt and can be read back from it |
| `GenerateDraft.DraftContentOf` | scripts/generateDraft.js:147-159 | Parsed content is accepted iff it is an object with string title, summary and body, and an image prompt that is a string, null or absent |
| `GenerateDraft.ContentRoundTrip` | scripts/generateDraft.js:117-132 | An article written as the requested JSON shape is read back as the same article |
| `GenerateDraft.ExtraFieldsIgnored` | scripts/generateDraft.js:150-158 | Fields other than the four are ignored |
| `GenerateDraft.ReadDraft` | scripts/generateDraft.js:135-158 | The request counts as failed iff the reply is not ok. An article is obtained only from an ok reply whose non-empty content parses to JSON that the store accepts, and it is that JSON's article |
| `GenerateDraft.ReadDraftSpec` | scripts/generateDraft.js:135-147 | An article is obtained iff the reply is successful and its content parses to acceptable JSON, and it is the article that JSON describes |
| `GenerateDraft.MailNamesDraft` | scripts/generateDraft.js:35-38 | The mail goes to the sender's own address, and its subject quotes the draft's title after the fixed prefix |
| `GenerateDraft.Notify` | scripts/generateDraft.js:29-57 | No mail without both credentials. Otherwise exactly the announcement mail is attempted, and delivery decides only whether it counts as sent |
| `GenerateDraft.SampleStartsWithNewest` | scripts/generateDraft.js:82-90 | A non-empty topic table gives one to five sample topics, the first being the newest topic |
| `GenerateDraft.Run` | scripts/generateDraft.js:63-173 | No request without a key, a label or a topic. Otherwise one request carries the newest label and the five newest headlines. Any failure reading the reply stores nothing. Success appends exactly one pending, imageless draft with the article's fields, linked to the newest topic. The mail outcome never changes the store |
| `FetchReddit.ToTopics` | scripts/fetchReddit.js:23-29 | One topic per post, in listing order, each mapped the same way |
| `FetchReddit.ToTopicsSpec` | scripts/fetchReddit.js:23-29 | Each topic keeps its post's title, community and score, and its URL yields back the permalink |
| `FetchReddit.TopicOfInjective` | scripts/fetchReddit.js:23-29 | Two posts give equal topics exactly when they agree on the four fields read |
| `FetchReddit.DecimalRoundTrip` | scripts/fetchReddit.js:14 | The decimal text of the post limit in the URL reads back as the same number |
| `FetchReddit.FeedUrlSpelledOut` | scripts/fetchReddit.js:6-14 | The one request asks for the hot listing of the technology community with limit 25 |
| `FetchReddit.Run` | scripts/fetchReddit.js:10-37 | The one request is the feed URL. A batch is handed on iff the reply succeeded with a readable listing, and it is exactly the mapped posts, in listing order |
| `DraftsApi.Handle` | pages/api/admin/drafts.js:3-25 | 405 iff the method is not GET; 200 iff a GET whose store read succeeds; 500 iff a GET whose read fails |
| `DraftsApi.OtherMethodsRefused` | pages/api/admin/drafts.js:5-8 | A non-GET request gets `Allow: GET` and a text naming the method, whatever the store holds |
| `DraftsApi.ListingIsNewestFirst` | pages/api/admin/drafts.js:10-19 | A GET returns every draft exactly once, newest first |
| `DraftsApi.FailureIsGeneric` | pages/api/admin/drafts.js:20-24 | A failed read gives the same fixed error message whatever the failure |

## Left out

- Saving ingested topics (lib/db.js) is not part of this model. Feed ingestion ends with the batch it would hand over, so the single-row outcome for duplicate feed items is not modelled.
- The per-draft admin endpoints (read, edit, approve) and the admin pages are not part of this model.
- The stages' store calls are modelled as always succeeding. A store error in a stage would end that stage through its outer `catch` with no further writes. Only the listing endpoint models a failing read (500).
- Logging, the `finally` disconnect, `dotenv` and real time are left out. The back-off delays are recorded as values, not slept.
- The mail's HTML body and the SMTP transport are left out. Delivery is a boolean parameter.
- Records with equal `createdAt` keep insertion order in the newest-first order. The store leaves their order unspecified.
- The label table's uniqueness rule, which `skipDuplicates` consults, is an abstract relation (`Db.labelClash`). The schema is not part of this model.
- `FetchReddit.Run`: feed posts are typed records, so a post lacking `data` or with a non-string field is modelled only as an unreadable listing (`Malformed`), not field by field.
- `GenerateDraft.DraftContentOf`: the store's rejection of non-string title, summary or body, or of a non-string non-null image prompt, is assumed. The schema that enforces it is not part of this model.
- The error texts thrown inside the stages are left out. Each is modelled only as the outcome it leads to.
- `UriEncoding.EncodeUriComponent` works on Unicode scalar values, whereas a JavaScript string is UTF-16. A prompt holding an unpaired surrogate cannot be represented. On such a prompt `encodeURIComponent` throws, and image enrichment then ends in its `catch` without a request. The model has no such run.
- `Store.Db.CreateManyLabels` gives the admitted labels consecutive ids. A real store's id sequence may also consume ids for skipped duplicates, so only "fresh and increasing" is what the store itself guarantees.
