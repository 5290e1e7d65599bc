/** Documents as the server stores them in its MongoDB collections: flat field maps keyed by
    field name, addressed by an id, and the few query forms the routes use (field equality,
    right-biased `$set` merge, listing in natural order). */
module Documents {

  datatype Option<T> = None | Some(value: T)

  /** A fee amount that only the JavaScript runtime can turn into a number: either the number
      `parseFloat` reads from a metadata text, or a processor total in cents divided by 100. */
  datatype Amount = ParsedFee(text: string) | ChargedTotal(cents: int)

  /** The field values the routes read, write or compare. `Null` is also what a field that
      was `undefined` on insert becomes. */
  datatype Value =
    | Null
    | Bool(b: bool)
    | Num(n: int)
    | Str(s: string)
    | Date(ms: nat)
    | Money(amount: Amount)

  /** Document ids, standing for MongoDB ObjectIds. They are allocated in increasing order, and
      natural order is modelled as insertion order, that is ascending id. */
  type Id = nat

  /** The fields of one document. The id is kept outside, as the key of its collection. */
  type Fields = r: map<string, Value> | "_id" !in r witness map[]

  /** A document as a listing returns it: its id and its fields. */
  datatype Doc = Doc(id: Id, fields: Fields)

  /** The value a query sees for field `f`: an absent field reads as null, so that an
      equality query for null matches both a null and a missing field. */
  function FieldOf(r: Fields, f: string): Value {
    if f in r then r[f] else Null
  }

  /** `findOne({_id: id})`. */
  function Lookup(m: map<Id, Fields>, id: Id): Option<Fields> {
    if id in m then Some(m[id]) else None
  }

  /** `find({f: v})` finds something. */
  predicate AnyMatch(m: map<Id, Fields>, f: string, v: Value) {
    exists id :: id in m && FieldOf(m[id], f) == v
  }

  /** The ids whose document has `f` equal to `v`. */
  ghost function Holders(m: map<Id, Fields>, f: string, v: Value): set<Id> {
    set id | id in m && FieldOf(m[id], f) == v
  }

  /** No two documents agree on field `f` (a missing field counts as null). */
  ghost predicate UniqueBy(m: map<Id, Fields>, f: string) {
    forall i, j :: i in m && j in m && FieldOf(m[i], f) == FieldOf(m[j], f) ==> i == j
  }

  /** No two documents share a non-null value of field `f`. */
  ghost predicate UniqueWhenSet(m: map<Id, Fields>, f: string) {
    forall i, j :: i in m && j in m && FieldOf(m[i], f) == FieldOf(m[j], f) != Null ==> i == j
  }

  /** Every id in use is below the next id to allocate. */
  ghost predicate IdsBelow(m: map<Id, Fields>, n: Id) {
    forall id :: id in m ==> id < n
  }

  /** `findOne({f: v})` on a collection where `f` is unique: the one document that matches,
      or nothing. */
  function FindUnique(m: map<Id, Fields>, f: string, v: Value): (r: Option<Fields>)
    requires UniqueBy(m, f)
    ensures r.Some? <==> AnyMatch(m, f, v)
    ensures forall id :: id in m && FieldOf(m[id], f) == v ==> r == Some(m[id])
  {
    if exists id :: id in m && FieldOf(m[id], f) == v then
      var id :| id in m && FieldOf(m[id], f) == v;
      Some(m[id])
    else
      None
  }

  /** `updateOne(..., {$set: patch})` on one document: every patched field takes the patch's
      value, every other field keeps its value. */
  function Merge(doc: Fields, patch: Fields): (r: Fields)
    ensures r.Keys == doc.Keys + patch.Keys
    ensures forall k :: k in patch ==> r[k] == patch[k]
    ensures forall k :: k in doc && k !in patch ==> r[k] == doc[k]
  {
    doc + patch
  }

  /** The documents of `m` with an id below `n`, in ascending id order (natural order). */
  function Docs(m: map<Id, Fields>, n: nat): (r: seq<Doc>)
    ensures forall i :: 0 <= i < |r| ==> r[i].id < n && r[i].id in m && m[r[i].id] == r[i].fields
    ensures forall id :: id < n && id in m ==> Doc(id, m[id]) in r
    ensures forall i, j :: 0 <= i < j < |r| ==> r[i].id < r[j].id
    decreases n
  {
    if n == 0 then []
    else
      var prev := Docs(m, n - 1);
      if n - 1 in m then prev + [Doc(n - 1, m[n - 1])] else prev
  }

  /** `find({f: v})` over a listing: the documents whose field `f` equals `v`, in their order. */
  function Select(docs: seq<Doc>, f: string, v: Value): (r: seq<Doc>)
    ensures forall d :: d in r <==> d in docs && FieldOf(d.fields, f) == v
    ensures |r| <= |docs|
  {
    if docs == [] then []
    else
      var rest := Select(docs[1..], f, v);
      if FieldOf(docs[0].fields, f) == v then [docs[0]] + rest else rest
  }

  /** The ids a listing shows. */
  ghost function IdsOf(s: seq<Doc>): set<Id> {
    set i | 0 <= i < |s| :: s[i].id
  }

  /** A listing whose ids ascend holds each document at most once. */
  lemma {:induction false} AscendingHoldsOnce(s: seq<Doc>)
    requires forall i, j :: 0 <= i < j < |s| ==> s[i].id < s[j].id
    ensures forall d :: multiset(s)[d] <= 1
  {
    if s != [] {
      AscendingHoldsOnce(s[1..]);
      assert s == [s[0]] + s[1..];
      assert s[0] !in s[1..];
    }
  }

  /** A document at two positions of a listing is counted twice. */
  lemma RepeatCountsTwice(s: seq<Doc>, i: nat, j: nat)
    requires i < j < |s|
    ensures s[i] == s[j] ==> multiset(s)[s[i]] >= 2
  {
    assert s == s[..j] + s[j..];
    assert s[i] in s[..j];
    assert s[j..][0] == s[j];
  }

  /** Any selection, in any order, from a listing whose ids ascend shows each id at most once. */
  lemma SubListingHasDistinctIds(sub: seq<Doc>, all: seq<Doc>)
    requires forall i, j :: 0 <= i < j < |all| ==> all[i].id < all[j].id
    requires multiset(sub) <= multiset(all)
    ensures forall i, j :: 0 <= i < j < |sub| ==> sub[i].id != sub[j].id
  {
    AscendingHoldsOnce(all);
    forall i, j | 0 <= i < j < |sub| ensures sub[i].id != sub[j].id {
      assert sub[i] in multiset(all) && sub[j] in multiset(all);
      var k1 :| 0 <= k1 < |all| && all[k1] == sub[i];
      var k2 :| 0 <= k2 < |all| && all[k2] == sub[j];
      RepeatCountsTwice(sub, i, j);
    }
  }

  /** Writing a document twice keeps the second write. */
  lemma OverwriteTwice(m: map<Id, Fields>, id: Id, first: Fields, second: Fields)
    ensures m[id := first][id := second] == m[id := second]
  {
  }

  /** The ids of `m` below `n`. */
  ghost function KeysBelow(m: map<Id, Fields>, n: nat): set<Id> {
    set id | id in m && id < n
  }

  /** Raising the bound by one adds at most the one id it passes. */
  lemma KeysBelowStep(m: map<Id, Fields>, n: nat)
    requires n > 0
    ensures n - 1 in m ==> |KeysBelow(m, n)| == |KeysBelow(m, n - 1)| + 1
    ensures n - 1 !in m ==> KeysBelow(m, n) == KeysBelow(m, n - 1)
  {
    var below := KeysBelow(m, n - 1);
    if n - 1 in m {
      assert n - 1 !in below;
      assert KeysBelow(m, n) == below + {n - 1};
    } else {
      assert KeysBelow(m, n) == below;
    }
  }

  /** A listing has one entry per id it covers. */
  lemma {:induction false} DocsCount(m: map<Id, Fields>, n: nat)
    ensures |Docs(m, n)| == |KeysBelow(m, n)|
  {
    if n == 0 {
      assert KeysBelow(m, n) == {};
    } else {
      DocsCount(m, n - 1);
      KeysBelowStep(m, n);
      assert |Docs(m, n)| == |Docs(m, n - 1)| + if n - 1 in m then 1 else 0;
    }
  }

  /** A listing of a whole collection has one entry per document. */
  lemma DocsCountsCollection(m: map<Id, Fields>, n: nat)
    requires IdsBelow(m, n)
    ensures |Docs(m, n)| == |m|
  {
    DocsCount(m, n);
    assert KeysBelow(m, n) == m.Keys;
  }
}
