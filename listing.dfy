/** Review listings: sorting by `reviewDate` newest first, the limit of six and the projection
    to public fields used by `GET /reviews/public`. */
module Listing {
  import opened Documents

  /** The sort key of a review. Dates sort by their time; anything else (never stored: every
      review is stamped with a date) sorts after every date, as BSON orders dates above every
      other type a JSON body can carry. */
  function DateKey(d: Doc): int {
    match FieldOf(d.fields, "reviewDate")
    case Date(ms) => ms
    case _ => -1
  }

  predicate NewestFirst(docs: seq<Doc>) {
    forall i, j :: 0 <= i < j < |docs| ==> DateKey(docs[i]) >= DateKey(docs[j])
  }

  /** A document no older than the head of a newest-first listing can go in front of it. */
  lemma PrependNewest(d: Doc, sorted: seq<Doc>)
    requires NewestFirst(sorted)
    requires sorted == [] || DateKey(d) >= DateKey(sorted[0])
    ensures NewestFirst([d] + sorted)
  {
    var r := [d] + sorted;
    forall i, j | 0 <= i < j < |r| ensures DateKey(r[i]) >= DateKey(r[j]) {
      if i == 0 {
        assert DateKey(d) >= DateKey(sorted[0]) >= DateKey(sorted[j - 1]);
      } else {
        assert r[i] == sorted[i - 1] && r[j] == sorted[j - 1];
      }
    }
  }

  /** Inserting behind the head: the head stays in front of the tail with `d` inserted. */
  lemma InsertBehindHead(d: Doc, sorted: seq<Doc>, rest: seq<Doc>)
    requires NewestFirst(sorted) && sorted != [] && DateKey(d) < DateKey(sorted[0])
    requires NewestFirst(rest) && rest != []
    requires multiset(rest) == multiset(sorted[1..]) + multiset{d}
    requires rest[0] == d || (sorted[1..] != [] && rest[0] == sorted[1..][0])
    ensures NewestFirst([sorted[0]] + rest)
    ensures multiset([sorted[0]] + rest) == multiset(sorted) + multiset{d}
  {
    assert sorted == [sorted[0]] + sorted[1..];
    PrependNewest(sorted[0], rest);
  }

  /** Places `d` before the first document of `sorted` that is not newer than it. */
  function InsertByDate(d: Doc, sorted: seq<Doc>): (r: seq<Doc>)
    requires NewestFirst(sorted)
    ensures |r| == |sorted| + 1
    ensures NewestFirst(r)
    ensures multiset(r) == multiset(sorted) + multiset{d}
    ensures r[0] == d || (sorted != [] && r[0] == sorted[0])
  {
    if sorted == [] then [d]
    else if DateKey(d) >= DateKey(sorted[0]) then
      PrependNewest(d, sorted);
      [d] + sorted
    else
      var rest := InsertByDate(d, sorted[1..]);
      InsertBehindHead(d, sorted, rest);
      [sorted[0]] + rest
  }

  /** `.sort({ reviewDate: -1 })`: newest first. MongoDB leaves the order of documents with
      equal dates unspecified; the model chooses to keep their natural order. */
  function SortNewestFirst(docs: seq<Doc>): (r: seq<Doc>)
    ensures |r| == |docs|
    ensures NewestFirst(r)
    ensures multiset(r) == multiset(docs)
  {
    if docs == [] then []
    else
      assert docs == [docs[0]] + docs[1..];
      InsertByDate(docs[0], SortNewestFirst(docs[1..]))
  }

  /** The fields `GET /reviews/public` projects to (its `_id` is kept, as MongoDB keeps it). */
  const PublicFields: set<string> :=
    {"userName", "userImage", "ratingPoint", "reviewComment", "universityName", "reviewDate"}

  function Project(d: Doc): (p: Doc)
    ensures p.id == d.id && DateKey(p) == DateKey(d)
    ensures "userEmail" !in p.fields && p.fields.Keys <= PublicFields
    ensures forall k :: k in d.fields && k in PublicFields ==> k in p.fields && p.fields[k] == d.fields[k]
  {
    var p := Doc(d.id, map k | k in d.fields && k in PublicFields :: d.fields[k]);
    assert FieldOf(p.fields, "reviewDate") == FieldOf(d.fields, "reviewDate");
    p
  }

  function ProjectAll(docs: seq<Doc>): (r: seq<Doc>)
    ensures |r| == |docs|
    ensures forall i :: 0 <= i < |r| ==> r[i] == Project(docs[i])
  {
    if docs == [] then [] else [Project(docs[0])] + ProjectAll(docs[1..])
  }

  /** Projecting a newest-first list keeps it newest first. */
  lemma ProjectAllKeepsOrder(docs: seq<Doc>)
    requires NewestFirst(docs)
    ensures NewestFirst(ProjectAll(docs))
  {
    var r := ProjectAll(docs);
    assert forall i :: 0 <= i < |r| ==> DateKey(r[i]) == DateKey(docs[i]);
  }

  /** The first `m` entries of a newest-first list are taken from it, and every copy left
      behind is no newer than any of them. */
  lemma PrefixLeavesOlder(sorted: seq<Doc>, m: nat)
    requires NewestFirst(sorted) && m <= |sorted|
    ensures multiset(sorted[..m]) <= multiset(sorted)
    ensures forall d, i :: 0 <= i < m && multiset(sorted[..m])[d] < multiset(sorted)[d] ==>
      DateKey(d) <= DateKey(sorted[i])
  {
    assert sorted == sorted[..m] + sorted[m..];
    forall d, i | 0 <= i < m && multiset(sorted[..m])[d] < multiset(sorted)[d]
      ensures DateKey(d) <= DateKey(sorted[i])
    {
      assert d in multiset(sorted[m..]);
      var k :| 0 <= k < |sorted[m..]| && sorted[m..][k] == d;
      assert sorted[m + k] == d;
    }
  }

  /** `.sort({ reviewDate: -1 }).limit(6)`: six of the documents (all of them when there are
      fewer), newest first, and none left out is newer than one kept. */
  function Newest6(docs: seq<Doc>): (r: seq<Doc>)
    ensures |r| == if |docs| < 6 then |docs| else 6
    ensures NewestFirst(r)
    ensures multiset(r) <= multiset(docs)
    ensures forall d, i :: 0 <= i < |r| && multiset(r)[d] < multiset(docs)[d] ==> DateKey(d) <= DateKey(r[i])
  {
    var sorted := SortNewestFirst(docs);
    var m := if |sorted| < 6 then |sorted| else 6;
    PrefixLeavesOlder(sorted, m);
    sorted[..m]
  }

  /** `GET /reviews/public`: at most six reviews, newest first, with only public fields, each
      the projection of a review taken at most as often as it occurs. */
  function PublicRecent(docs: seq<Doc>): (r: seq<Doc>)
    ensures |r| == if |docs| < 6 then |docs| else 6
    ensures NewestFirst(r)
    ensures forall i :: 0 <= i < |r| ==> "userEmail" !in r[i].fields && r[i].fields.Keys <= PublicFields
    ensures exists top :: multiset(top) <= multiset(docs) && r == ProjectAll(top)
  {
    var top := Newest6(docs);
    ProjectAllKeepsOrder(top);
    ProjectAll(top)
  }

  /** On a listing whose ids ascend, the public listing shows each review at most once. */
  lemma PublicRecentHasDistinctIds(docs: seq<Doc>)
    requires forall i, j :: 0 <= i < j < |docs| ==> docs[i].id < docs[j].id
    ensures forall i, j :: 0 <= i < j < |PublicRecent(docs)| ==>
      PublicRecent(docs)[i].id != PublicRecent(docs)[j].id
  {
    var top :| multiset(top) <= multiset(docs) && PublicRecent(docs) == ProjectAll(top);
    SubListingHasDistinctIds(top, docs);
  }

  /** No review left out of the public listing is newer than one shown in it. */
  lemma {:induction false} PublicRecentIsNewest(docs: seq<Doc>, d: Doc)
    requires d in docs
    ensures Project(d) in PublicRecent(docs) ||
            forall i :: 0 <= i < |PublicRecent(docs)| ==> DateKey(PublicRecent(docs)[i]) >= DateKey(d)
  {
    var top := Newest6(docs);
    var r := PublicRecent(docs);
    assert r == ProjectAll(top);
    if d in top {
      var k :| 0 <= k < |top| && top[k] == d;
      assert r[k] == Project(d);
    } else {
      assert multiset(top)[d] < multiset(docs)[d];
      forall i | 0 <= i < |r| ensures DateKey(r[i]) >= DateKey(d) {
        assert DateKey(r[i]) == DateKey(top[i]);
      }
    }
  }
}
