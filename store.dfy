/**
 * The relational store the scripts share, seen through the Prisma calls they
 * make: three tables held as sequences in insertion order, store-assigned
 * ids and timestamps, and the four operations the core performs on them
 * (`createMany` with `skipDuplicates`, `create`, `update` with `push`).
 */
module Store {
  import opened Common

  datatype Status = Pending | Approved

  /** One ingested feed item. */
  datatype Topic = Topic(id: nat, title: string, subreddit: string, score: int, url: string, createdAt: int)

  /** An AI-synthesised thematic label. */
  datatype TopicLabel = TopicLabel(id: nat, text: string, createdAt: int)

  /** An article draft; `images` only grows. */
  datatype Draft = Draft(
    id: nat,
    title: string,
    summary: string,
    body: string,
    imagePrompt: Option<string>,
    images: seq<string>,
    status: Status,
    topicId: nat,
    createdAt: int)

  /** The fields a script supplies to `prisma.draft.create`; `imagePrompt` is a nullable column. */
  datatype NewDraft = NewDraft(
    title: string,
    summary: string,
    body: string,
    imagePrompt: Option<string>,
    status: Status,
    topicId: nat)

  function TopicTime(t: Topic): int { t.createdAt }
  function LabelTime(l: TopicLabel): int { l.createdAt }
  function DraftTime(d: Draft): int { d.createdAt }

  /** `topics.map(t => t.title)`. */
  function TopicTitles(ts: seq<Topic>): (r: seq<string>)
    ensures |r| == |ts| && forall i :: 0 <= i < |ts| ==> r[i] == ts[i].title
  {
    seq(|ts|, i requires 0 <= i < |ts| => ts[i].title)
  }

  function LabelTexts(ls: seq<TopicLabel>): (r: seq<string>)
    ensures |r| == |ls| && forall i :: 0 <= i < |ls| ==> r[i] == ls[i].text
  {
    seq(|ls|, i requires 0 <= i < |ls| => ls[i].text)
  }

  /** `r` is `s` with some elements left out and the others kept in their order. */
  predicate IsSubsequence(r: seq<string>, s: seq<string>)
    decreases |s|
  {
    if s == [] then r == []
    else IsSubsequence(r, s[1..]) || (r != [] && r[0] == s[0] && IsSubsequence(r[1..], s[1..]))
  }

  /**
   * The candidates `createMany({ skipDuplicates: true })` actually inserts:
   * in order, each one that does not clash, under the schema's uniqueness
   * relation `clash`, with a stored record or with a candidate inserted
   * before it in the same batch. The inserted candidates keep the batch's order.
   */
  function Admit(existing: seq<string>, batch: seq<string>, clash: (string, string) -> bool): (r: seq<string>)
    ensures IsSubsequence(r, batch)
    decreases |batch|
  {
    if batch == [] then []
    else if exists e :: e in existing && clash(e, batch[0]) then Admit(existing, batch[1..], clash)
    else [batch[0]] + Admit(existing + [batch[0]], batch[1..], clash)
  }

  /** Admit inserts only candidates of the batch, never more than given, none clashing with the store. */
  lemma {:induction false} AdmitSound(existing: seq<string>, batch: seq<string>, clash: (string, string) -> bool)
    ensures |Admit(existing, batch, clash)| <= |batch|
    ensures forall a :: a in Admit(existing, batch, clash) ==> a in batch
    ensures forall a, e :: a in Admit(existing, batch, clash) && e in existing ==> !clash(e, a)
    decreases |batch|
  {
    if batch != [] {
      var b := batch[0];
      assert batch == [b] + batch[1..];
      if exists e :: e in existing && clash(e, b) {
        AdmitSound(existing, batch[1..], clash);
      } else {
        AdmitSound(existing + [b], batch[1..], clash);
      }
    }
  }

  /** No two entries clash, the later one checked against the earlier. */
  predicate Pairwise(r: seq<string>, clash: (string, string) -> bool)
  {
    forall i, j :: 0 <= i < j < |r| ==> !clash(r[i], r[j])
  }

  /** No two candidates admitted from one batch clash with each other. */
  lemma {:induction false} AdmitPairwise(existing: seq<string>, batch: seq<string>, clash: (string, string) -> bool)
    ensures Pairwise(Admit(existing, batch, clash), clash)
    decreases |batch|
  {
    if batch != [] {
      var b := batch[0];
      if exists e :: e in existing && clash(e, b) {
        AdmitPairwise(existing, batch[1..], clash);
      } else {
        var rest := Admit(existing + [b], batch[1..], clash);
        AdmitPairwise(existing + [b], batch[1..], clash);
        AdmitSound(existing + [b], batch[1..], clash);
        var r := [b] + rest;
        forall i, j | 0 <= i < j < |r| ensures !clash(r[i], r[j]) {
          assert r[j] == rest[j - 1] && r[j] in rest;
          if i == 0 {
            assert b in existing + [b];
          } else {
            assert r[i] == rest[i - 1];
          }
        }
      }
    }
  }

  /** A table free of clashing pairs stays so after `createMany({ skipDuplicates: true })`. */
  lemma TablePairwise(existing: seq<string>, batch: seq<string>, clash: (string, string) -> bool)
    requires Pairwise(existing, clash)
    ensures Pairwise(existing + Admit(existing, batch, clash), clash)
  {
    var admitted := Admit(existing, batch, clash);
    AdmitPairwise(existing, batch, clash);
    AdmitSound(existing, batch, clash);
    var t := existing + admitted;
    forall i, j | 0 <= i < j < |t| ensures !clash(t[i], t[j]) {
      if j >= |existing| {
        assert t[j] == admitted[j - |existing|] && t[j] in admitted;
        if i < |existing| {
          assert t[i] == existing[i] && t[i] in existing;
        } else {
          assert t[i] == admitted[i - |existing|];
        }
      } else {
        assert t[i] == existing[i] && t[j] == existing[j];
      }
    }
  }

  /**
   * Admit inserts every candidate that clashes neither with a stored record
   * nor with a candidate before it in the batch.
   */
  lemma {:induction false} AdmitComplete(existing: seq<string>, batch: seq<string>, clash: (string, string) -> bool, i: nat)
    requires i < |batch|
    requires forall e :: e in existing + batch[..i] ==> !clash(e, batch[i])
    ensures batch[i] in Admit(existing, batch, clash)
    decreases i
  {
    var b := batch[0];
    if i == 0 {
      assert existing + batch[..0] == existing;
    } else {
      var more := if exists e :: e in existing && clash(e, b) then existing else existing + [b];
      assert batch[1..][i - 1] == batch[i];
      assert batch[..i] == [b] + batch[1..][..i - 1];
      forall e | e in more + batch[1..][..i - 1] ensures e in existing + batch[..i] {
      }
      AdmitComplete(more, batch[1..], clash, i - 1);
    }
  }

  /**
   * Running the same batch again right after it was admitted inserts
   * nothing, provided every key clashes with itself.
   */
  lemma {:induction false} AdmitIdempotent(existing: seq<string>, batch: seq<string>, clash: (string, string) -> bool)
    requires forall x :: clash(x, x)
    ensures Admit(existing + Admit(existing, batch, clash), batch, clash) == []
    decreases |batch|
  {
    if batch != [] {
      var b := batch[0];
      var first := Admit(existing, batch, clash);
      if exists e :: e in existing && clash(e, b) {
        var e :| e in existing && clash(e, b);
        assert e in existing + first;
        AdmitIdempotent(existing, batch[1..], clash);
      } else {
        var more := existing + [b];
        assert first == [b] + Admit(more, batch[1..], clash);
        assert existing + first == more + Admit(more, batch[1..], clash);
        assert b in existing + first && clash(b, b);
        AdmitIdempotent(more, batch[1..], clash);
      }
    }
  }

  /** Two equal candidates in one batch give one inserted record. */
  lemma DuplicateInBatch(existing: seq<string>, a: string, clash: (string, string) -> bool)
    requires forall x :: clash(x, x)
    requires forall e :: e in existing ==> !clash(e, a)
    ensures Admit(existing, [a, a], clash) == [a]
  {
    assert [a, a][1..] == [a];
    assert !exists e :: e in existing && clash(e, a);
    assert Admit(existing, [a, a], clash) == [a] + Admit(existing + [a], [a], clash);
    assert a in existing + [a] && clash(a, a);
    assert Admit(existing + [a], [a], clash) == Admit(existing + [a], [], clash);
  }

  /** The records the store creates for admitted labels: consecutive ids, one timestamp. */
  function StampLabels(texts: seq<string>, firstId: nat, now: int): (r: seq<TopicLabel>)
    ensures |r| == |texts|
    ensures forall i :: 0 <= i < |texts| ==> r[i] == TopicLabel(firstId + i, texts[i], now)
  {
    seq(|texts|, i requires 0 <= i < |texts| => TopicLabel(firstId + i, texts[i], now))
  }

  /** The draft list after `update({ where: { id }, data: { images: { push: url } } })`. */
  function AppendImage(ds: seq<Draft>, id: nat, url: string): (r: seq<Draft>)
    ensures |r| == |ds|
  {
    seq(|ds|, i requires 0 <= i < |ds| => if ds[i].id == id then ds[i].(images := ds[i].images + [url]) else ds[i])
  }

  /**
   * A push changes only the draft with that id: its images grow by exactly
   * the new URL at the end, every other field stays; all other drafts stay.
   */
  lemma AppendImageSpec(ds: seq<Draft>, id: nat, url: string, k: nat)
    requires k < |ds|
    ensures var r := AppendImage(ds, id, url);
      && (ds[k].id == id ==>
            && r[k].images == ds[k].images + [url]
            && |r[k].images| == |ds[k].images| + 1
            && r[k].images[|ds[k].images|] == url
            && r[k] == ds[k].(images := r[k].images))
      && (ds[k].id != id ==> r[k] == ds[k])
  {
  }

  /** Draft ids grow in insertion order, so no two drafts share one. */
  ghost predicate IncreasingIds(ds: seq<Draft>)
  {
    forall i, j :: 0 <= i < j < |ds| ==> ds[i].id < ds[j].id
  }

  /**
   * The store. Its tables are the fields the scripts' Prisma calls read and
   * change. Ids are below the next id to hand out and increase with
   * insertion, and no two stored labels clash under the uniqueness relation.
   */
  class Db {
    var topics: seq<Topic>
    var labels: seq<TopicLabel>
    var drafts: seq<Draft>
    var nextLabelId: nat
    var nextDraftId: nat
    /** The schema's uniqueness relation for labels, which `skipDuplicates` consults. */
    const labelClash: (string, string) -> bool

    ghost predicate Valid()
      reads this
    {
      && (forall i :: 0 <= i < |labels| ==> labels[i].id < nextLabelId)
      && (forall i, j :: 0 <= i < j < |labels| ==> labels[i].id < labels[j].id)
      && (forall i :: 0 <= i < |drafts| ==> drafts[i].id < nextDraftId)
      && IncreasingIds(drafts)
      && Pairwise(LabelTexts(labels), labelClash)
    }

    constructor (clash: (string, string) -> bool, topics0: seq<Topic>)
      ensures Valid()
      ensures topics == topics0 && labels == [] && drafts == [] && labelClash == clash
    {
      topics, labels, drafts := topics0, [], [];
      nextLabelId, nextDraftId := 1, 1;
      labelClash := clash;
    }

    /** `prisma.topicLabel.createMany({ data, skipDuplicates: true })`; yields `result.count`. */
    method CreateManyLabels(data: seq<string>, now: int) returns (count: nat)
      requires Valid()
      modifies this
      ensures Valid()
      ensures var admitted := Admit(LabelTexts(old(labels)), data, labelClash);
        && labels == old(labels) + StampLabels(admitted, old(nextLabelId), now)
        && count == |admitted|
        && nextLabelId == old(nextLabelId) + count
      ensures topics == old(topics) && drafts == old(drafts) && nextDraftId == old(nextDraftId)
    {
      var admitted := Admit(LabelTexts(labels), data, labelClash);
      TablePairwise(LabelTexts(labels), data, labelClash);
      ghost var stamped := StampLabels(admitted, nextLabelId, now);
      assert LabelTexts(labels + stamped) == LabelTexts(labels) + admitted;
      labels := labels + StampLabels(admitted, nextLabelId, now);
      nextLabelId := nextLabelId + |admitted|;
      count := |admitted|;
    }

    /** `prisma.draft.create({ data })`: a fresh id, no images yet, created now. */
    method CreateDraft(data: NewDraft, now: int) returns (d: Draft)
      requires Valid()
      modifies this
      ensures Valid()
      ensures d == Draft(old(nextDraftId), data.title, data.summary, data.body, data.imagePrompt,
                         [], data.status, data.topicId, now)
      ensures drafts == old(drafts) + [d]
      ensures nextDraftId == old(nextDraftId) + 1
      ensures topics == old(topics) && labels == old(labels) && nextLabelId == old(nextLabelId)
    {
      d := Draft(nextDraftId, data.title, data.summary, data.body, data.imagePrompt,
                 [], data.status, data.topicId, now);
      drafts := drafts + [d];
      nextDraftId := nextDraftId + 1;
    }

    /**
     * `prisma.draft.update({ where: { id }, data: { images: { push: url } } })`.
     * With no draft of that id the update fails and nothing changes.
     */
    method PushImage(id: nat, url: string) returns (found: bool)
      requires Valid()
      modifies this
      ensures Valid()
      ensures found <==> exists i :: 0 <= i < |old(drafts)| && old(drafts)[i].id == id
      ensures drafts == (if found then AppendImage(old(drafts), id, url) else old(drafts))
      ensures topics == old(topics) && labels == old(labels)
      ensures nextLabelId == old(nextLabelId) && nextDraftId == old(nextDraftId)
    {
      found := exists i :: 0 <= i < |drafts| && drafts[i].id == id;
      if found {
        drafts := AppendImage(drafts, id, url);
      }
    }
  }
}
