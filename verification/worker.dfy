/**
  The processing worker: `processOne` as a state transformer on the store,
  and one worker pass as a sequential fold of it over at most 50 fetched
  unprocessed documents.
 */
module Worker {
  import opened Wrappers
  import opened Records
  import opened Store
  import opened Classifier
  import opened Fingerprint

  /**
    What one `processOne` call meets that the model does not compute: a
    snapshot that cannot be decoded, a failing dedup query, and the clock
    reading stored as `processed_at`.
   */
  datatype Conditions = Conditions(decodeFails: bool, queryFails: bool, now: Instant)

  /** The store after one document, and the text sent for it, if any. */
  datatype Step = Step(store: Store, sent: Option<string>)

  /** The store after a run over a batch, and the texts sent, in order. */
  datatype Pass = Pass(store: Store, sent: seq<string>)

  /** A worker invocation: whether the fetch succeeded, the final store, and what was sent. */
  datatype WorkerResult = WorkerResult(fetched: bool, store: Store, sent: seq<string>)

  const BatchSize: nat := 50

  const JobPostBanner: string := "\U{1F4E2} Job Post\n\nChannel: "

  /** `formatMessage`: the banner, the channel name, a blank line, then the message text verbatim. */
  function FormatMessage(msg: Record): (r: string)
    ensures |r| == |JobPostBanner| + |msg.channelName| + 2 + |msg.text|
    ensures r[..|JobPostBanner|] == JobPostBanner
    ensures r[|JobPostBanner|..|JobPostBanner| + |msg.channelName|] == msg.channelName
    ensures r[|JobPostBanner| + |msg.channelName|..|r| - |msg.text|] == "\n\n"
    ensures r[|r| - |msg.text|..] == msg.text
  {
    JobPostBanner + msg.channelName + "\n\n" + msg.text
  }

  /** What `processOne` computes from a text before touching the store: its classification and fingerprint. */
  datatype Verdict = Verdict(relevant: bool, fingerprint: string)

  function VerdictOf(p: Primitives, text: string): Verdict {
    Verdict(IsRelevant(text), ComputeFingerprint(p, text))
  }

  /**
    The record `processOne` leaves at `doc.id`, stated against the store as it
    was before the call: carrying the verdict, and newly forwarded exactly
    when the text is relevant, the dedup query succeeds and no other document
    is already forwarded with the same fingerprint.
   */
  function ExpectedRecord(s: Store, doc: Snapshot, c: Conditions, v: Verdict): Record
    requires doc.id in s
  {
    s[doc.id].(
      isProcessed := true,
      isRelevant := Some(v.relevant),
      processedAt := Some(c.now),
      fingerprint := Some(v.fingerprint),
      isForwarded := s[doc.id].isForwarded || (v.relevant && !c.queryFails && !ForwardedElsewhere(s, doc.id, v.fingerprint)))
  }

  /** After the processing update, the dedup query sees the document itself and every other one unchanged. */
  lemma QueryAfterUpdate(s: Store, docId: string, relevant: bool, f: string, now: Instant)
    ensures docId in s ==>
      var updated := UpdateProcessingResult(s, docId, relevant, f, now);
      IsFingerprintForwarded(updated, f) == (s[docId].isForwarded || ForwardedElsewhere(s, docId, f))
  {
    if docId !in s {
      return;
    }
    var u := UpdateProcessingResult(s, docId, relevant, f, now);
    if IsFingerprintForwarded(u, f) {
      var k :| k in u && ForwardedWith(u[k], f);
      if k != docId {
        assert k in s && ForwardedWith(s[k], f);
      }
    }
    if s[docId].isForwarded {
      assert ForwardedWith(u[docId], f);
    }
    if ForwardedElsewhere(s, docId, f) {
      var k :| k in s && k != docId && ForwardedWith(s[k], f);
      assert ForwardedWith(u[k], f);
    }
  }

  /**
    The store transitions of `processOne` once the verdict is known: record
    the result whatever it is, and for a relevant text with no forwarded copy
    send it and mark it forwarded. The send outcome is not consulted.
   */
  function Transition(s: Store, doc: Snapshot, c: Conditions, v: Verdict): (r: Step)
    ensures r.store.Keys == s.Keys
    ensures forall k :: k in s && k != doc.id ==> r.store[k] == s[k]
    ensures c.decodeFails || doc.id !in s ==> r.store == s
    ensures c.decodeFails ==> r.sent.None?
    ensures !c.decodeFails && doc.id in s ==> r.store[doc.id] == ExpectedRecord(s, doc, c, v)
    ensures r.sent.Some? ==> r.sent.value == FormatMessage(doc.data)
    ensures doc.id in s ==> (r.sent.Some? <==> !s[doc.id].isForwarded && r.store[doc.id].isForwarded)
  {
    if c.decodeFails then Step(s, None)
    else
      var updated := UpdateProcessingResult(s, doc.id, v.relevant, v.fingerprint, c.now);
      QueryAfterUpdate(s, doc.id, v.relevant, v.fingerprint, c.now);
      if !v.relevant then Step(updated, None)
      else if c.queryFails || IsFingerprintForwarded(updated, v.fingerprint) then Step(updated, None)
      else Step(MarkForwarded(updated, doc.id), Some(FormatMessage(doc.data)))
  }

  /** `processOne`: decode, fingerprint and classify the text, then make the store transition. */
  function ProcessOne(p: Primitives, s: Store, doc: Snapshot, c: Conditions): (r: Step)
    ensures r.store.Keys == s.Keys
    ensures forall k :: k in s && k != doc.id ==> r.store[k] == s[k]
    ensures c.decodeFails ==> r.store == s && r.sent.None?
    ensures r.sent.Some? ==> r.sent.value == FormatMessage(doc.data)
  {
    Transition(s, doc, c, VerdictOf(p, doc.data.text))
  }

  /**
    On a fetched, unprocessed document that decodes, `processOne` records the
    text's classification and fingerprint, and leaves the document forwarded
    exactly when the text is relevant, the dedup query succeeds and no other
    document was already forwarded with that fingerprint. An irrelevant
    document therefore ends unforwarded, and whether the send succeeded
    plays no part.
   */
  lemma ProcessOneClassifiesAndForwardsFirst(p: Primitives, s: Store, doc: Snapshot, c: Conditions)
    requires doc.id in s && s[doc.id] == doc.data && RecordValid(p, doc.data) && !doc.data.isProcessed
    requires !c.decodeFails
    ensures var r := ProcessOne(p, s, doc, c).store[doc.id];
      var f := ComputeFingerprint(p, doc.data.text);
      && r.isProcessed && r.isRelevant == Some(IsRelevant(doc.data.text)) && r.fingerprint == Some(f)
      && r.text == doc.data.text
      && (r.isForwarded <==> IsRelevant(doc.data.text) && !c.queryFails && !ForwardedElsewhere(s, doc.id, f))
  {
    assert !s[doc.id].isForwarded;
  }

  /** A document that processing newly forwards carries a fingerprint no other forwarded document has. */
  lemma NewForwardIsOnlyCopy(p: Primitives, s: Store, doc: Snapshot, c: Conditions)
    requires doc.id in s && !s[doc.id].isForwarded
    ensures var r := ProcessOne(p, s, doc, c).store;
      r[doc.id].isForwarded ==>
        forall b :: b in r && b != doc.id && r[b].isForwarded ==> r[b].fingerprint != r[doc.id].fingerprint
  {
    var r := ProcessOne(p, s, doc, c).store;
    if r[doc.id].isForwarded {
      var f := ComputeFingerprint(p, doc.data.text);
      assert !ForwardedElsewhere(s, doc.id, f);
      forall b | b in r && b != doc.id && r[b].isForwarded
        ensures r[b].fingerprint != Some(f)
      {
        assert r[b] == s[b];
      }
    }
  }

  lemma ProcessOneKeepsAtMostOne(p: Primitives, s: Store, doc: Snapshot, c: Conditions)
    requires AtMostOneForwarded(s) && doc.id in s && !s[doc.id].isForwarded
    ensures AtMostOneForwarded(ProcessOne(p, s, doc, c).store)
  {
    var r := ProcessOne(p, s, doc, c).store;
    NewForwardIsOnlyCopy(p, s, doc, c);
    forall a, b | a in r && b in r && r[a].isForwarded && r[b].isForwarded && r[a].fingerprint == r[b].fingerprint
      ensures a == b
    {
      if a != doc.id && b != doc.id {
        assert r[a] == s[a] && r[b] == s[b];
      }
    }
  }

  lemma ProcessOneKeepsRecordsValid(p: Primitives, s: Store, doc: Snapshot, c: Conditions)
    requires forall k :: k in s ==> RecordValid(p, s[k])
    requires doc.id in s && s[doc.id] == doc.data && !doc.data.isProcessed
    ensures var r := ProcessOne(p, s, doc, c).store;
      forall k :: k in r ==> RecordValid(p, r[k])
  {
    var r := ProcessOne(p, s, doc, c).store;
    if !c.decodeFails {
      assert RecordValid(p, r[doc.id]);
    }
  }

  /** Processing a fetched, unprocessed document keeps the store invariant. */
  lemma ProcessOnePreservesValid(p: Primitives, s: Store, doc: Snapshot, c: Conditions)
    requires Valid(p, s)
    requires doc.id in s && s[doc.id] == doc.data && !doc.data.isProcessed
    ensures Valid(p, ProcessOne(p, s, doc, c).store)
  {
    assert RecordValid(p, s[doc.id]);
    ProcessOneKeepsAtMostOne(p, s, doc, c);
    ProcessOneKeepsRecordsValid(p, s, doc, c);
  }

  /** One `processOne` call only moves the store forward. */
  lemma ProcessOneEvolves(p: Primitives, s: Store, doc: Snapshot, c: Conditions)
    ensures Evolves(s, ProcessOne(p, s, doc, c).store)
  {
  }

  /**
    How the store may change under the worker: the same documents, each
    keeping its text, and neither `is_processed` nor `is_forwarded` ever
    switched back off.
   */
  predicate Evolves(s: Store, t: Store) {
    && t.Keys == s.Keys
    && forall k :: k in s ==>
      && t[k].text == s[k].text
      && (s[k].isProcessed ==> t[k].isProcessed)
      && (s[k].isForwarded ==> t[k].isForwarded)
  }

  lemma EvolvesTransitive(s: Store, t: Store, u: Store)
    requires Evolves(s, t) && Evolves(t, u)
    ensures Evolves(s, u)
  {
  }

  /** The documents of `batch` from position `i` on are current and unprocessed in `s`. */
  predicate FreshFrom(s: Store, batch: seq<Snapshot>, i: nat) {
    forall j :: i <= j < |batch| ==> batch[j].id in s && s[batch[j].id] == batch[j].data && !batch[j].data.isProcessed
  }

  /**
    The batch loop of `workerHandler`, from position `i`: documents are
    processed one after another, each against the store its predecessors left.
   */
  function RunBatch(p: Primitives, s: Store, batch: seq<Snapshot>, conds: nat -> Conditions, i: nat): (r: Pass)
    requires i <= |batch|
    ensures Evolves(s, r.store)
    ensures forall k :: k in s && k !in Ids(batch)[i..] ==> r.store[k] == s[k]
    ensures |r.sent| <= |batch| - i
    decreases |batch| - i
  {
    if i == |batch| then Pass(s, [])
    else
      var step := ProcessOne(p, s, batch[i], conds(i));
      var rest := RunBatch(p, step.store, batch, conds, i + 1);
      ProcessOneEvolves(p, s, batch[i], conds(i));
      EvolvesTransitive(s, step.store, rest.store);
      assert forall k :: k in Ids(batch)[i + 1..] ==> k in Ids(batch)[i..];
      assert batch[i].id in Ids(batch)[i..];
      Pass(rest.store, (if step.sent.Some? then [step.sent.value] else []) + rest.sent)
  }

  /**
    The messages for the documents of `batch` from position `i` on that are
    forwarded in `t` but were not in `s`, in batch order.
   */
  function NewlyForwardedMessages(s: Store, t: Store, batch: seq<Snapshot>, i: nat): seq<string>
    requires i <= |batch|
    requires forall j :: i <= j < |batch| ==> batch[j].id in s && batch[j].id in t
    decreases |batch| - i
  {
    if i == |batch| then []
    else
      var id := batch[i].id;
      (if !s[id].isForwarded && t[id].isForwarded then [FormatMessage(batch[i].data)] else [])
      + NewlyForwardedMessages(s, t, batch, i + 1)
  }

  /**
    A run sends exactly one message per batch document it newly forwards,
    in batch order, and nothing else.
   */
  lemma {:induction false} RunBatchSendsNewForwards(p: Primitives, s: Store, batch: seq<Snapshot>, conds: nat -> Conditions, i: nat)
    requires i <= |batch| && Distinct(Ids(batch))
    requires forall j :: i <= j < |batch| ==> batch[j].id in s
    ensures var r := RunBatch(p, s, batch, conds, i);
      r.sent == NewlyForwardedMessages(s, r.store, batch, i)
    decreases |batch| - i
  {
    if i < |batch| {
      var id := batch[i].id;
      var step := ProcessOne(p, s, batch[i], conds(i));
      var rest := RunBatch(p, step.store, batch, conds, i + 1);
      RunBatchSendsNewForwards(p, step.store, batch, conds, i + 1);
      HeadNotInTail(batch, i);
      assert rest.store[id] == step.store[id];
      forall j | i + 1 <= j < |batch|
        ensures step.store[batch[j].id] == s[batch[j].id]
      {
        assert Ids(batch)[i] != Ids(batch)[j];
      }
      SameNewForwards(s, step.store, rest.store, batch, i + 1);
    }
  }

  /** Two stores that agree on the rest of the batch see the same newly forwarded documents there. */
  lemma {:induction false} SameNewForwards(s: Store, s': Store, t: Store, batch: seq<Snapshot>, i: nat)
    requires i <= |batch|
    requires forall j :: i <= j < |batch| ==> batch[j].id in s && batch[j].id in s' && batch[j].id in t
    requires forall j :: i <= j < |batch| ==> s'[batch[j].id] == s[batch[j].id]
    ensures NewlyForwardedMessages(s', t, batch, i) == NewlyForwardedMessages(s, t, batch, i)
    decreases |batch| - i
  {
    if i < |batch| {
      SameNewForwards(s, s', t, batch, i + 1);
    }
  }

  /** One step of the batch keeps the rest of the batch fresh. */
  lemma StepKeepsFresh(p: Primitives, s: Store, batch: seq<Snapshot>, conds: nat -> Conditions, i: nat)
    requires i < |batch| && FreshFrom(s, batch, i) && Distinct(Ids(batch))
    ensures FreshFrom(ProcessOne(p, s, batch[i], conds(i)).store, batch, i + 1)
  {
    forall j | i + 1 <= j < |batch|
      ensures batch[j].id != batch[i].id
    {
      assert Ids(batch)[i] != Ids(batch)[j];
    }
  }

  /** A run over a fetched batch keeps the store invariant. */
  lemma {:induction false} RunBatchPreservesValid(p: Primitives, s: Store, batch: seq<Snapshot>, conds: nat -> Conditions, i: nat)
    requires i <= |batch| && Valid(p, s) && FreshFrom(s, batch, i) && Distinct(Ids(batch))
    ensures Valid(p, RunBatch(p, s, batch, conds, i).store)
    decreases |batch| - i
  {
    if i < |batch| {
      var step := ProcessOne(p, s, batch[i], conds(i));
      ProcessOnePreservesValid(p, s, batch[i], conds(i));
      StepKeepsFresh(p, s, batch, conds, i);
      RunBatchPreservesValid(p, step.store, batch, conds, i + 1);
    }
  }

  /** The first document of the rest of the batch does not occur again after it. */
  lemma HeadNotInTail(batch: seq<Snapshot>, i: nat)
    requires i < |batch| && Distinct(Ids(batch))
    ensures batch[i].id !in Ids(batch)[i + 1..]
  {
    forall j | i + 1 <= j < |batch|
      ensures Ids(batch)[j] != batch[i].id
    {
      assert Ids(batch)[i] != Ids(batch)[j];
    }
  }

  /** Every document of the batch that decodes ends processed. */
  lemma {:induction false} RunBatchProcessesBatch(p: Primitives, s: Store, batch: seq<Snapshot>, conds: nat -> Conditions, i: nat)
    requires i <= |batch| && FreshFrom(s, batch, i) && Distinct(Ids(batch))
    ensures forall j :: i <= j < |batch| && !conds(j).decodeFails ==> RunBatch(p, s, batch, conds, i).store[batch[j].id].isProcessed
    decreases |batch| - i
  {
    if i < |batch| {
      var step := ProcessOne(p, s, batch[i], conds(i));
      StepKeepsFresh(p, s, batch, conds, i);
      RunBatchProcessesBatch(p, step.store, batch, conds, i + 1);
      HeadNotInTail(batch, i);
    }
  }

  /** A document of the batch that cannot be decoded is left exactly as it was. */
  lemma {:induction false} RunBatchSkipsUndecodable(p: Primitives, s: Store, batch: seq<Snapshot>, conds: nat -> Conditions, i: nat)
    requires i <= |batch| && FreshFrom(s, batch, i) && Distinct(Ids(batch))
    ensures forall j :: i <= j < |batch| && conds(j).decodeFails ==> RunBatch(p, s, batch, conds, i).store[batch[j].id] == s[batch[j].id]
    decreases |batch| - i
  {
    if i < |batch| {
      var step := ProcessOne(p, s, batch[i], conds(i));
      StepKeepsFresh(p, s, batch, conds, i);
      RunBatchSkipsUndecodable(p, step.store, batch, conds, i + 1);
      HeadNotInTail(batch, i);
    }
  }

  /** A batch document that the run forwards unless fingerprint `f` is already claimed: it decodes, the dedup query succeeds, and its text is relevant with fingerprint `f`. */
  predicate Forwardable(p: Primitives, doc: Snapshot, c: Conditions, f: string) {
    !c.decodeFails && !c.queryFails && IsRelevant(doc.data.text) && ComputeFingerprint(p, doc.data.text) == f
  }

  /** The documents of `batch` from position `i` on are in `s` and not yet forwarded. */
  predicate UnforwardedFrom(s: Store, batch: seq<Snapshot>, i: nat) {
    forall j :: i <= j < |batch| ==> batch[j].id in s && !s[batch[j].id].isForwarded
  }

  /** One `processOne` call forwards its document only when it met no fault and the text is relevant. */
  lemma StepForwardsOnlyForwardable(p: Primitives, s: Store, doc: Snapshot, c: Conditions)
    requires doc.id in s && !s[doc.id].isForwarded
    ensures ProcessOne(p, s, doc, c).store[doc.id].isForwarded ==>
      Forwardable(p, doc, c, ComputeFingerprint(p, doc.data.text))
  {
  }

  /** A batch document that ends forwarded met no fault and has a relevant text. */
  lemma {:induction false} RunBatchForwardsOnlyForwardable(p: Primitives, s: Store, batch: seq<Snapshot>, conds: nat -> Conditions, i: nat)
    requires i <= |batch| && UnforwardedFrom(s, batch, i) && Distinct(Ids(batch))
    ensures var r := RunBatch(p, s, batch, conds, i).store;
      forall j :: i <= j < |batch| && r[batch[j].id].isForwarded ==>
        Forwardable(p, batch[j], conds(j), ComputeFingerprint(p, batch[j].data.text))
    decreases |batch| - i
  {
    if i < |batch| {
      var doc := batch[i];
      var step := ProcessOne(p, s, doc, conds(i));
      forall j | i + 1 <= j < |batch|
        ensures step.store[batch[j].id] == s[batch[j].id]
      {
        assert Ids(batch)[i] != Ids(batch)[j];
      }
      RunBatchForwardsOnlyForwardable(p, step.store, batch, conds, i + 1);
      HeadNotInTail(batch, i);
      StepForwardsOnlyForwardable(p, s, doc, conds(i));
    }
  }

  /**
    After a run, fingerprint `f` is forwarded if it was before or if some
    document of the batch is relevant with fingerprint `f` and meets no fault.
   */
  lemma {:induction false} RunBatchClaimsFingerprint(p: Primitives, s: Store, batch: seq<Snapshot>, conds: nat -> Conditions, i: nat, f: string)
    requires i <= |batch| && Valid(p, s) && FreshFrom(s, batch, i) && Distinct(Ids(batch))
    requires IsFingerprintForwarded(s, f) || exists j :: i <= j < |batch| && Forwardable(p, batch[j], conds(j), f)
    ensures IsFingerprintForwarded(RunBatch(p, s, batch, conds, i).store, f)
    decreases |batch| - i
  {
    if i == |batch| {
    } else {
      var doc := batch[i];
      var step := ProcessOne(p, s, doc, conds(i));
      ProcessOnePreservesValid(p, s, doc, conds(i));
      StepKeepsFresh(p, s, batch, conds, i);
      assert !s[doc.id].isForwarded;
      if IsFingerprintForwarded(s, f) {
        var k :| k in s && ForwardedWith(s[k], f);
        assert k != doc.id;
        assert ForwardedWith(step.store[k], f);
      } else if Forwardable(p, doc, conds(i), f) {
        assert ForwardedWith(step.store[doc.id], f);
      } else {
        var j :| i <= j < |batch| && Forwardable(p, batch[j], conds(j), f);
        assert j != i;
      }
      RunBatchClaimsFingerprint(p, step.store, batch, conds, i + 1, f);
    }
  }

  /**
    A document forwarded under a fingerprint that had no forwarded copy
    before the run is a batch document whose text has that fingerprint.
   */
  lemma NewClaimComesFromBatch(p: Primitives, s: Store, batch: seq<Snapshot>, conds: nat -> Conditions, f: string, k: string)
    requires Valid(p, s) && FreshFrom(s, batch, 0) && Distinct(Ids(batch)) && !IsFingerprintForwarded(s, f)
    requires var r := RunBatch(p, s, batch, conds, 0).store;
      k in r && ForwardedWith(r[k], f)
    ensures exists j :: 0 <= j < |batch| && batch[j].id == k && ComputeFingerprint(p, batch[j].data.text) == f
  {
    var r := RunBatch(p, s, batch, conds, 0).store;
    RunBatchPreservesValid(p, s, batch, conds, 0);
    var j :| 0 <= j < |batch| && Ids(batch)[j] == k;
    assert RecordValid(p, r[k]);
    assert r[k].text == s[k].text == batch[j].data.text;
  }

  /** A document forwarded under a fingerprint that had no forwarded copy before the run is a forwardable batch document. */
  lemma NewHolderIsForwardable(p: Primitives, s: Store, batch: seq<Snapshot>, conds: nat -> Conditions, f: string, k: string)
    requires Valid(p, s) && FreshFrom(s, batch, 0) && Distinct(Ids(batch)) && !IsFingerprintForwarded(s, f)
    requires var r := RunBatch(p, s, batch, conds, 0).store;
      k in r && ForwardedWith(r[k], f)
    ensures exists j :: 0 <= j < |batch| && batch[j].id == k && Forwardable(p, batch[j], conds(j), f)
  {
    NewClaimComesFromBatch(p, s, batch, conds, f, k);
    var j :| 0 <= j < |batch| && batch[j].id == k && ComputeFingerprint(p, batch[j].data.text) == f;
    forall i | 0 <= i < |batch|
      ensures !s[batch[i].id].isForwarded
    {
      assert RecordValid(p, s[batch[i].id]);
    }
    RunBatchForwardsOnlyForwardable(p, s, batch, conds, 0);
  }

  /** Under the invariant, two documents with the same fingerprint are not both forwarded. */
  lemma NotBothForwarded(s: Store, x: string, y: string, f: string)
    requires AtMostOneForwarded(s)
    requires x in s && y in s && x != y && s[x].fingerprint == Some(f) && s[y].fingerprint == Some(f)
    ensures !(s[x].isForwarded && s[y].isForwarded)
  {
  }

  /** A forwardable batch document ends processed and carries fingerprint `f`. */
  lemma RepostsClassified(p: Primitives, s: Store, batch: seq<Snapshot>, conds: nat -> Conditions, a: nat, f: string)
    requires Valid(p, s) && FreshFrom(s, batch, 0) && Distinct(Ids(batch))
    requires a < |batch| && Forwardable(p, batch[a], conds(a), f)
    ensures var r := RunBatch(p, s, batch, conds, 0).store;
      r[batch[a].id].isProcessed && r[batch[a].id].fingerprint == Some(f)
  {
    var r := RunBatch(p, s, batch, conds, 0).store;
    RunBatchPreservesValid(p, s, batch, conds, 0);
    RunBatchProcessesBatch(p, s, batch, conds, 0);
    assert RecordValid(p, r[batch[a].id]);
  }

  /**
    Two reposts in one pass: documents `a` and `b` of a fetched batch, both
    relevant with the same fingerprint, no fault on either, no other batch
    document that could claim that fingerprint and no forwarded copy
    beforehand. Both end processed and exactly one of them ends forwarded.
   */
  lemma DuplicatePostsForwardedOnce(p: Primitives, s: Store, batch: seq<Snapshot>, conds: nat -> Conditions, a: nat, b: nat)
    requires Valid(p, s) && FreshFrom(s, batch, 0) && Distinct(Ids(batch))
    requires a < |batch| && b < |batch| && a != b
    requires var f := ComputeFingerprint(p, batch[a].data.text);
      && Forwardable(p, batch[a], conds(a), f)
      && Forwardable(p, batch[b], conds(b), f)
      && !IsFingerprintForwarded(s, f)
      && forall j :: 0 <= j < |batch| && j != a && j != b ==> !Forwardable(p, batch[j], conds(j), f)
    ensures var r := RunBatch(p, s, batch, conds, 0).store;
      && r[batch[a].id].isProcessed && r[batch[b].id].isProcessed
      && r[batch[a].id].isForwarded != r[batch[b].id].isForwarded
  {
    var f := ComputeFingerprint(p, batch[a].data.text);
    var r := RunBatch(p, s, batch, conds, 0).store;
    var ida, idb := batch[a].id, batch[b].id;
    assert ida != idb by {
      assert Ids(batch)[a] != Ids(batch)[b];
    }
    RepostsClassified(p, s, batch, conds, a, f);
    RepostsClassified(p, s, batch, conds, b, f);
    RunBatchClaimsFingerprint(p, s, batch, conds, 0, f);
    var k :| k in r && ForwardedWith(r[k], f);
    NewHolderIsForwardable(p, s, batch, conds, f, k);
    var j :| 0 <= j < |batch| && batch[j].id == k && Forwardable(p, batch[j], conds(j), f);
    assert j == a || j == b;
    RunBatchPreservesValid(p, s, batch, conds, 0);
    NotBothForwarded(r, ida, idb, f);
  }

  /**
    The messages a run sends are those of the batch documents it newly
    forwards, in batch order, and each such document holds a fingerprint
    that no other forwarded document holds: one message per fingerprint,
    never repeating a copy forwarded earlier.
   */
  lemma RunBatchSendsOncePerFingerprint(p: Primitives, s: Store, batch: seq<Snapshot>, conds: nat -> Conditions)
    requires Valid(p, s) && FreshFrom(s, batch, 0) && Distinct(Ids(batch))
    ensures var r := RunBatch(p, s, batch, conds, 0);
      && r.sent == NewlyForwardedMessages(s, r.store, batch, 0)
      && forall j, k :: 0 <= j < |batch| && k in r.store && k != batch[j].id
          && r.store[batch[j].id].isForwarded && r.store[k].isForwarded
          ==> r.store[k].fingerprint != r.store[batch[j].id].fingerprint
  {
    RunBatchSendsNewForwards(p, s, batch, conds, 0);
    RunBatchPreservesValid(p, s, batch, conds, 0);
  }

  /**
    One invocation of the worker's batch path: fetch at most 50 unprocessed
    documents in index order and run the batch over them; a failed fetch
    ends the invocation with the store untouched.
   */
  function WorkerPass(p: Primitives, s: Store, order: seq<string>, fetchFails: bool, conds: nat -> Conditions): (r: WorkerResult)
    requires Distinct(order) && Indexes(order, s)
    ensures r.store.Keys == s.Keys
    ensures fetchFails ==> !r.fetched && r.store == s && r.sent == []
    ensures forall k :: k in s && s[k].isProcessed ==> r.store[k] == s[k]
    ensures |r.sent| <= BatchSize
  {
    if fetchFails then WorkerResult(false, s, [])
    else
      var batch := FetchUnprocessed(s, order, BatchSize);
      var pass := RunBatch(p, s, batch, conds, 0);
      assert Ids(batch)[0..] == Ids(batch);
      WorkerResult(true, pass.store, pass.sent)
  }

  /** A worker invocation keeps the store invariant. */
  lemma WorkerPassPreservesValid(p: Primitives, s: Store, order: seq<string>, fetchFails: bool, conds: nat -> Conditions)
    requires Distinct(order) && Indexes(order, s) && Valid(p, s)
    ensures Valid(p, WorkerPass(p, s, order, fetchFails, conds).store)
  {
    if !fetchFails {
      var batch := FetchUnprocessed(s, order, BatchSize);
      RunBatchPreservesValid(p, s, batch, conds, 0);
    }
  }

  /** With nothing left unprocessed, an invocation changes nothing and sends nothing. */
  lemma EmptyBacklogChangesNothing(p: Primitives, s: Store, order: seq<string>, conds: nat -> Conditions)
    requires Distinct(order) && Indexes(order, s)
    requires forall k :: k in s ==> s[k].isProcessed
    ensures WorkerPass(p, s, order, false, conds) == WorkerResult(true, s, [])
  {
    assert Backlog(s) == {};
  }

  /**
    A successful invocation takes min(50, backlog) documents, and every one
    of them that decodes ends processed.
   */
  lemma WorkerPassProcessesBatch(p: Primitives, s: Store, order: seq<string>, conds: nat -> Conditions)
    requires Distinct(order) && Indexes(order, s)
    ensures var batch := FetchUnprocessed(s, order, BatchSize);
      var r := WorkerPass(p, s, order, false, conds);
      && |batch| == Min(BatchSize, |Backlog(s)|)
      && forall j :: 0 <= j < |batch| && !conds(j).decodeFails ==> r.store[batch[j].id].isProcessed
  {
    var batch := FetchUnprocessed(s, order, BatchSize);
    RunBatchProcessesBatch(p, s, batch, conds, 0);
  }

  /** A backlog of at most 50 documents that all decode is cleared by one invocation. */
  lemma WorkerPassClearsSmallBacklog(p: Primitives, s: Store, order: seq<string>, conds: nat -> Conditions)
    requires Distinct(order) && Indexes(order, s)
    requires |Backlog(s)| <= BatchSize
    requires forall j :: 0 <= j < |Backlog(s)| ==> !conds(j).decodeFails
    ensures Backlog(WorkerPass(p, s, order, false, conds).store) == {}
  {
    var batch := FetchUnprocessed(s, order, BatchSize);
    var r := WorkerPass(p, s, order, false, conds).store;
    WorkerPassProcessesBatch(p, s, order, conds);
    forall k | k in r
      ensures r[k].isProcessed
    {
      if !s[k].isProcessed {
        assert k in Backlog(s);
        var j :| 0 <= j < |batch| && Ids(batch)[j] == k;
        assert r[batch[j].id].isProcessed;
      }
    }
  }
}
