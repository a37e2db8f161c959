/**
 * Values shared by the pipeline scripts: optional values, what one network
 * call yields, the parsed JSON values the scripts inspect, newline joining,
 * and the newest-first ordering the store applies to `orderBy: { createdAt: 'desc' }`.
 */
module Common {

  datatype Option<+T> = None | Some(value: T)

  /** An environment variable or other value as JavaScript truthiness sees it: absent or empty is false. */
  predicate Present(v: Option<string>)
  {
    v.Some? && v.value != ""
  }

  /**
   * What one `fetch` call yields: it either throws (network failure) or
   * resolves to a response with an HTTP status and a body of type B.
   * `response.ok` holds exactly for statuses 200 to 299.
   */
  datatype HttpReply<B> = Threw | Replied(status: int, body: B)
  {
    predicate Ok()
    {
      Replied? && 200 <= status <= 299
    }
  }

  /**
   * The body of a generative-AI reply after `response.json()`: either that
   * call throws, or the optional chain `candidates?.[0]?.content?.parts?.[0]?.text`
   * yields a text or nothing.
   */
  datatype AiBody = Unreadable | Envelope(content: Option<string>)

  type AiReply = HttpReply<AiBody>

  /** A POST to the generative-AI endpoint: the URL carries the key, the body the prompt. */
  datatype AiRequest = AiRequest(url: string, prompt: string)

  const GeminiEndpoint: string :=
    "https://generativelanguage.googleapis.com/v1beta/models/gemini-2.5-flash-preview-05-20:generateContent"

  /** The request URL: the fixed endpoint and `?key=`, then exactly the key. */
  function GeminiUrl(key: string): (url: string)
    ensures |url| == |GeminiEndpoint| + 5 + |key|
    ensures url[..|GeminiEndpoint|] == GeminiEndpoint && url[|GeminiEndpoint|..|GeminiEndpoint| + 5] == "?key="
    ensures url[|GeminiEndpoint| + 5..] == key
  {
    GeminiEndpoint + "?key=" + key
  }

  /** A value produced by `JSON.parse`. */
  datatype Json =
    | JNull
    | JBool(b: bool)
    | JNum(n: real)
    | JStr(s: string)
    | JArr(items: seq<Json>)
    | JObj(fields: map<string, Json>)

  /** JavaScript truthiness of a parsed JSON value (`||`, `!`). */
  predicate Truthy(j: Json)
  {
    match j
    case JNull => false
    case JBool(b) => b
    case JNum(n) => n != 0.0
    case JStr(s) => s != ""
    case _ => true
  }

  /** `xs.join(sep)`. */
  function Join(xs: seq<string>, sep: char): (r: string)
  {
    if xs == [] then ""
    else if |xs| == 1 then xs[0]
    else xs[0] + [sep] + Join(xs[1..], sep)
  }

  /** `xs.join('\n')`. */
  function JoinLines(xs: seq<string>): string
  {
    Join(xs, '\n')
  }

  /** The first position of `c` in `s`. */
  function IndexOf(s: string, c: char): (i: nat)
    requires c in s
    ensures i < |s| && s[i] == c && c !in s[..i]
  {
    if s[0] == c then 0
    else
      assert s == [s[0]] + s[1..];
      var j := IndexOf(s[1..], c);
      assert s[..j + 1] == [s[0]] + s[1..][..j];
      j + 1
  }

  /** `s.split(sep)`: the inverse partner of Join. */
  function Split(s: string, sep: char): (r: seq<string>)
    ensures |r| >= 1
    decreases |s|
  {
    if sep !in s then [s]
    else
      var i := IndexOf(s, sep);
      [s[..i]] + Split(s[i + 1..], sep)
  }

  function SplitLines(s: string): seq<string>
  {
    Split(s, '\n')
  }

  /** No element contains the separator. */
  predicate Free(xs: seq<string>, sep: char)
  {
    forall k :: 0 <= k < |xs| ==> sep !in xs[k]
  }

  predicate NoNewline(xs: seq<string>)
  {
    Free(xs, '\n')
  }

  lemma FirstSeparator(x: string, sep: char, rest: string)
    requires sep !in x
    ensures sep in x + [sep] + rest
    ensures IndexOf(x + [sep] + rest, sep) == |x|
  {
    var s := x + [sep] + rest;
    assert s[|x|] == sep;
    assert s[..|x|] == x;
  }

  /** Joining parts that do not contain the separator and splitting again gives them back. */
  lemma {:induction false} SplitJoin(xs: seq<string>, sep: char)
    requires xs != [] && Free(xs, sep)
    ensures Split(Join(xs, sep), sep) == xs
  {
    if |xs| == 1 {
      assert sep !in xs[0];
    } else {
      var s := xs[0] + [sep] + Join(xs[1..], sep);
      assert sep !in xs[0];
      FirstSeparator(xs[0], sep, Join(xs[1..], sep));
      assert s[..|xs[0]|] == xs[0];
      assert s[|xs[0]| + 1..] == Join(xs[1..], sep);
      SplitJoin(xs[1..], sep);
      assert xs == [xs[0]] + xs[1..];
    }
  }

  // ---------------------------------------------------------------------------
  // Newest-first ordering (`orderBy: { createdAt: 'desc' }`, `take`, `findFirst`)
  // ---------------------------------------------------------------------------

  /** The sequence is ordered by the key `at`, largest (newest) first. */
  ghost predicate NewestFirst<T>(s: seq<T>, at: T -> int)
  {
    forall i, j :: 0 <= i < j < |s| ==> at(s[i]) >= at(s[j])
  }

  /** Places `x` before the first element that is not newer than it. */
  function Insert<T(==)>(x: T, s: seq<T>, at: T -> int): (r: seq<T>)
    requires NewestFirst(s, at)
    ensures NewestFirst(r, at)
    ensures multiset(r) == multiset(s) + multiset{x}
    ensures |r| == |s| + 1
    ensures r[0] == x || (s != [] && r[0] == s[0])
  {
    if s == [] || at(s[0]) <= at(x) then [x] + s
    else
      var tail := Insert(x, s[1..], at);
      assert s == [s[0]] + s[1..];
      assert at(s[0]) >= at(tail[0]);
      assert forall j :: 0 <= j < |tail| ==> at(tail[0]) >= at(tail[j]);
      [s[0]] + tail
  }

  /**
   * The store's order for `orderBy: { createdAt: 'desc' }`: every record,
   * newest first. Records with equal keys keep their insertion order.
   */
  function SortByNewest<T(==)>(s: seq<T>, at: T -> int): (r: seq<T>)
    ensures NewestFirst(r, at)
    ensures multiset(r) == multiset(s)
    ensures |r| == |s|
  {
    if s == [] then []
    else
      assert s == [s[0]] + s[1..];
      Insert(s[0], SortByNewest(s[1..], at), at)
  }

  /** `findMany({ take: n, orderBy: { createdAt: 'desc' } })`. */
  function TakeNewest<T(==)>(s: seq<T>, n: nat, at: T -> int): (r: seq<T>)
  {
    var sorted := SortByNewest(s, at);
    if n < |sorted| then sorted[..n] else sorted
  }

  /** TakeNewest yields min(n, |s|) records of the store, newest first. */
  lemma TakeNewestSpec<T>(s: seq<T>, n: nat, at: T -> int)
    ensures var r := TakeNewest(s, n, at);
      && |r| == (if n < |s| then n else |s|)
      && NewestFirst(r, at)
      && multiset(r) <= multiset(s)
  {
    var sorted := SortByNewest(s, at);
    var r := TakeNewest(s, n, at);
    assert sorted == r + sorted[|r|..];
    assert multiset(sorted) == multiset(r) + multiset(sorted[|r|..]);
  }

  /** No record TakeNewest leaves out is newer than a record it keeps. */
  lemma TakeNewestKeepsNewest<T>(s: seq<T>, n: nat, at: T -> int, x: T, y: T)
    requires x in TakeNewest(s, n, at)
    requires y in multiset(s) - multiset(TakeNewest(s, n, at))
    ensures at(y) <= at(x)
  {
    var sorted := SortByNewest(s, at);
    var r := TakeNewest(s, n, at);
    var k := |r|;
    var rest := sorted[k..];
    assert sorted == r + rest;
    assert multiset(sorted) == multiset(r) + multiset(rest);
    assert y in multiset(rest);
    var i :| 0 <= i < k && r[i] == x;
    var j :| 0 <= j < |rest| && rest[j] == y;
    assert sorted[i] == x && sorted[k + j] == y;
  }

  /** `findFirst({ orderBy: { createdAt: 'desc' } })`. */
  function Newest<T(==)>(s: seq<T>, at: T -> int): (r: Option<T>)
  {
    var sorted := SortByNewest(s, at);
    if sorted == [] then None else Some(sorted[0])
  }

  /** Newest finds a record exactly when there is one, and nothing in the store is newer. */
  lemma NewestSpec<T>(s: seq<T>, at: T -> int)
    ensures Newest(s, at).None? <==> s == []
    ensures Newest(s, at).Some? ==>
      Newest(s, at).value in s && forall e :: e in s ==> at(e) <= at(Newest(s, at).value)
  {
    var sorted := SortByNewest(s, at);
    if sorted != [] {
      assert sorted[0] in multiset(s);
      forall e | e in s ensures at(e) <= at(sorted[0]) {
        assert e in multiset(sorted);
        var j :| 0 <= j < |sorted| && sorted[j] == e;
        if j > 0 {
          assert at(sorted[0]) >= at(sorted[j]);
        }
      }
    }
  }
}
