/**
  The message collection as a map from document ID to record, the store
  operations the pipeline performs on it, and the invariants it keeps.
 */
module Store {
  import opened Wrappers
  import opened Records
  import opened Classifier
  import opened Fingerprint

  type Store = map<string, Record>

  /** A fetched document: its ID and the record as read at fetch time. */
  datatype Snapshot = Snapshot(id: string, data: Record)

  predicate Distinct<T(==)>(xs: seq<T>) {
    forall i, j :: 0 <= i < j < |xs| ==> xs[i] != xs[j]
  }

  function Ids(batch: seq<Snapshot>): (r: seq<string>)
    ensures |r| == |batch|
    ensures forall i :: 0 <= i < |batch| ==> r[i] == batch[i].id
  {
    seq(|batch|, i requires 0 <= i < |batch| => batch[i].id)
  }

  /** `storeMessage`: a whole-record overwrite of the document at `docId`, created if missing. */
  function StoreMessage(s: Store, docId: string, msg: Record): (r: Store)
    ensures r.Keys == s.Keys + {docId}
    ensures r[docId] == msg
    ensures forall k :: k in s && k != docId ==> r[k] == s[k]
  {
    s[docId := msg]
  }

  /**
    `updateProcessingResult`: sets the four processing fields of an existing
    document. An update of a missing document fails and changes nothing.
   */
  function UpdateProcessingResult(s: Store, docId: string, isRelevant: bool, fingerprint: string, now: Instant): (r: Store)
    ensures r.Keys == s.Keys
    ensures forall k :: k in s && k != docId ==> r[k] == s[k]
    ensures docId in s ==>
      && r[docId].isProcessed && ProcessingFieldsTogether(r[docId])
      && r[docId].isRelevant == Some(isRelevant) && r[docId].fingerprint == Some(fingerprint)
      && r[docId].(isProcessed := s[docId].isProcessed, isRelevant := s[docId].isRelevant,
                   processedAt := s[docId].processedAt, fingerprint := s[docId].fingerprint) == s[docId]
  {
    if docId in s then
      s[docId := s[docId].(isProcessed := true, isRelevant := Some(isRelevant), processedAt := Some(now), fingerprint := Some(fingerprint))]
    else s
  }

  /** `markForwarded`: sets the forwarded flag of an existing document. */
  function MarkForwarded(s: Store, docId: string): (r: Store)
    ensures r.Keys == s.Keys
    ensures forall k :: k in s && k != docId ==> r[k] == s[k]
    ensures docId in s ==> r[docId].isForwarded && r[docId].(isForwarded := s[docId].isForwarded) == s[docId]
  {
    if docId in s then s[docId := s[docId].(isForwarded := true)] else s
  }

  /** The record is a forwarded copy carrying fingerprint `f`. */
  predicate ForwardedWith(r: Record, f: string) {
    r.isForwarded && r.fingerprint == Some(f)
  }

  /** The documents forwarded under fingerprint `f`. */
  function ForwardedKeys(s: Store, f: string): set<string> {
    set k | k in s && ForwardedWith(s[k], f)
  }

  /** `isFingerprintForwarded`: the query for a forwarded document with fingerprint `f`. */
  predicate IsFingerprintForwarded(s: Store, f: string) {
    exists k :: k in s && ForwardedWith(s[k], f)
  }

  /** Some document other than `docId` is forwarded under fingerprint `f`. */
  predicate ForwardedElsewhere(s: Store, docId: string, f: string) {
    exists k :: k in s && k != docId && ForwardedWith(s[k], f)
  }

  /** The documents still waiting to be processed. */
  function Backlog(s: Store): set<string> {
    set k | k in s && !s[k].isProcessed
  }

  /** The index lists every stored document. */
  predicate Indexes(order: seq<string>, s: Store) {
    forall k :: k in s ==> k in order
  }

  function Min(a: nat, b: nat): nat {
    if a < b then a else b
  }

  /** The walk behind the fetch: the first `limit` unprocessed documents met along `order`. */
  function TakeUnprocessed(s: Store, order: seq<string>, limit: nat): (r: seq<Snapshot>)
    requires Distinct(order)
    ensures |r| <= limit
    ensures forall i :: 0 <= i < |r| ==> r[i].id in order && r[i].id in s && r[i].data == s[r[i].id] && !r[i].data.isProcessed
    ensures Distinct(Ids(r))
    ensures |r| < limit ==> forall k :: k in order && k in s && !s[k].isProcessed ==> k in Ids(r)
  {
    if limit == 0 || order == [] then []
    else
      var rest := order[1..];
      assert forall k :: k in order <==> k == order[0] || k in rest;
      if order[0] in s && !s[order[0]].isProcessed then
        var tail := TakeUnprocessed(s, rest, limit - 1);
        assert order[0] !in rest;
        var r := [Snapshot(order[0], s[order[0]])] + tail;
        assert Ids(r) == [order[0]] + Ids(tail);
        r
      else
        TakeUnprocessed(s, rest, limit)
  }

  /** A sequence without repetitions has as many distinct elements as it is long. */
  lemma {:induction false} DistinctCardinality(xs: seq<string>)
    requires Distinct(xs)
    ensures |set x | x in xs| == |xs|
  {
    if xs != [] {
      assert Distinct(xs[1..]) by {
        forall i, j | 0 <= i < j < |xs[1..]|
          ensures xs[1..][i] != xs[1..][j]
        {
          assert xs[1..][i] == xs[i + 1] && xs[1..][j] == xs[j + 1];
        }
      }
      DistinctCardinality(xs[1..]);
      assert (set x | x in xs) == {xs[0]} + (set x | x in xs[1..]);
      assert xs[0] !in (set x | x in xs[1..]);
    }
  }

  lemma {:induction false} SubsetCardinality(a: set<string>, b: set<string>)
    requires a <= b
    ensures |a| <= |b|
    ensures |a| == |b| ==> a == b
    decreases b
  {
    if a != {} {
      var x :| x in a;
      SubsetCardinality(a - {x}, b - {x});
      assert a == (a - {x}) + {x} && b == (b - {x}) + {x};
    }
  }

  /**
    `fetchUnprocessed`: up to `limit` unprocessed documents in the
    collection's index order `order`, each read as it currently is. The
    index lists every document, so the fetch returns `limit` documents, or
    the whole backlog when that is smaller.
   */
  function FetchUnprocessed(s: Store, order: seq<string>, limit: nat): (r: seq<Snapshot>)
    requires Distinct(order) && Indexes(order, s)
    ensures forall i :: 0 <= i < |r| ==> r[i].id in s && r[i].data == s[r[i].id] && !r[i].data.isProcessed
    ensures Distinct(Ids(r))
    ensures |r| == Min(limit, |Backlog(s)|)
    ensures |Backlog(s)| <= limit ==> forall k :: k in Backlog(s) ==> k in Ids(r)
  {
    var r := TakeUnprocessed(s, order, limit);
    var taken := set k | k in Ids(r);
    DistinctCardinality(Ids(r));
    assert taken <= Backlog(s);
    SubsetCardinality(taken, Backlog(s));
    assert |r| < limit ==> Backlog(s) == taken;
    assert |Backlog(s)| <= limit ==> Backlog(s) == taken;
    r
  }

  /** The processing fields are set together: all present exactly when the record is processed. */
  predicate ProcessingFieldsTogether(r: Record) {
    && r.isRelevant.Some? == r.isProcessed
    && r.processedAt.Some? == r.isProcessed
    && r.fingerprint.Some? == r.isProcessed
  }

  /** Only a processed, relevant record is ever forwarded. */
  predicate ForwardedOnlyIfRelevant(r: Record) {
    r.isForwarded ==> r.isProcessed && r.isRelevant == Some(true)
  }

  /** A processed record carries the classification and fingerprint of its own text. */
  predicate Classified(p: Primitives, r: Record) {
    r.isProcessed ==>
      r.isRelevant == Some(IsRelevant(r.text)) && r.fingerprint == Some(ComputeFingerprint(p, r.text))
  }

  predicate RecordValid(p: Primitives, r: Record) {
    ProcessingFieldsTogether(r) && ForwardedOnlyIfRelevant(r) && Classified(p, r)
  }

  /** At most one forwarded document per fingerprint. */
  predicate AtMostOneForwarded(s: Store) {
    forall a, b :: a in s && b in s && s[a].isForwarded && s[b].isForwarded && s[a].fingerprint == s[b].fingerprint ==> a == b
  }

  /** The store invariant. */
  predicate Valid(p: Primitives, s: Store) {
    (forall k :: k in s ==> RecordValid(p, s[k])) && AtMostOneForwarded(s)
  }

  /**
    Under the invariant the dedup query answers yes exactly when one document
    is forwarded under the fingerprint, and no otherwise.
   */
  lemma ForwardedCopyIsUnique(s: Store, f: string)
    requires AtMostOneForwarded(s)
    ensures IsFingerprintForwarded(s, f) <==> exists k :: ForwardedKeys(s, f) == {k}
    ensures !IsFingerprintForwarded(s, f) <==> ForwardedKeys(s, f) == {}
  {
    if IsFingerprintForwarded(s, f) {
      var k :| k in s && ForwardedWith(s[k], f);
      forall j | j in ForwardedKeys(s, f)
        ensures j == k
      {
      }
      assert ForwardedKeys(s, f) == {k};
    } else {
      assert ForwardedKeys(s, f) == {};
    }
  }
}
