/**
  The ingestion side of the webhook: choose the message payload of an
  update, drop it when it has neither text nor media, otherwise overwrite the
  document at its composite ID with a fresh, unprocessed record.
 */
module Ingestion {
  import opened Wrappers
  import opened Records
  import opened Store
  import opened Fingerprint

  /** The message carries text, a caption, a photo or a document. */
  predicate HasContent(m: RawMessage) {
    m.text != "" || m.caption != "" || m.document.Some? || |m.photos| > 0
  }

  /** A record in its initial state: nothing processed, classified or forwarded yet. */
  predicate Pristine(r: Record) {
    !r.isProcessed && r.isRelevant.None? && r.processedAt.None? && r.fingerprint.None? && !r.isForwarded
  }

  /** The record stored for message `m` received at `now`; only the message text is copied, never the caption. */
  predicate RecordOf(m: RawMessage, now: Instant, r: Record) {
    && r.channelId == m.chat.id
    && r.channelName == m.chat.title
    && r.messageId == m.messageId
    && r.text == m.text
    && r.messageTimestamp == FromUnixSeconds(m.date)
    && r.receivedAt == now
    && Pristine(r)
  }

  /** The document ID and record written for message `m`. */
  predicate EntryOf(m: RawMessage, now: Instant, entry: (string, Record)) {
    entry.0 == DocId(m.chat.id, m.messageId) && RecordOf(m, now, entry.1)
  }

  /**
    The pure part of the webhook handler: the document ID and record to
    write, or `None` when the update is dropped. `message` takes precedence
    over `channel_post`.
   */
  function ToRecord(u: TelegramUpdate, now: Instant): (r: Option<(string, Record)>)
    ensures u.message.Some? ==>
      && (r.Some? <==> HasContent(u.message.value))
      && (r.Some? ==> EntryOf(u.message.value, now, r.value))
    ensures u.message.None? && u.channelPost.Some? ==>
      && (r.Some? <==> HasContent(u.channelPost.value))
      && (r.Some? ==> EntryOf(u.channelPost.value, now, r.value))
    ensures u.message.None? && u.channelPost.None? ==> r.None?
  {
    var msg := if u.message.Some? then u.message else u.channelPost;
    match msg
    case None => None
    case Some(m) =>
      var hasMedia := m.document.Some? || |m.photos| > 0;
      var hasText := m.text != "" || m.caption != "";
      if !hasText && !hasMedia then None
      else
        var docId := DocId(m.chat.id, m.messageId);
        Some((docId, Record(
          channelId := m.chat.id,
          channelName := m.chat.title,
          messageId := m.messageId,
          text := m.text,
          messageTimestamp := FromUnixSeconds(m.date),
          receivedAt := now,
          isProcessed := false,
          isRelevant := None,
          processedAt := None,
          fingerprint := None,
          isForwarded := false)))
  }

  /**
    The webhook's effect on the store. `writeFails` stands for a client or
    write error, which is logged and acknowledged like a success.
   */
  function HandleUpdate(s: Store, u: TelegramUpdate, now: Instant, writeFails: bool): (r: Store)
    ensures r.Keys >= s.Keys
    ensures forall k :: k in s && (ToRecord(u, now).None? || k != ToRecord(u, now).value.0) ==> r[k] == s[k]
    ensures ToRecord(u, now).None? || writeFails ==> r == s
    ensures ToRecord(u, now).Some? && !writeFails ==>
      var entry := ToRecord(u, now).value;
      r.Keys == s.Keys + {entry.0} && r[entry.0] == entry.1
  {
    match ToRecord(u, now)
    case None => s
    case Some((docId, rec)) => if writeFails then s else StoreMessage(s, docId, rec)
  }

  /** An update without text, caption, photo or document leaves the store as it was. */
  lemma EmptyUpdateIgnored(s: Store, u: TelegramUpdate, now: Instant, writeFails: bool)
    requires u.message.Some? ==> !HasContent(u.message.value)
    requires u.message.None? && u.channelPost.Some? ==> !HasContent(u.channelPost.value)
    ensures HandleUpdate(s, u, now, writeFails) == s
  {
  }

  /** When both payloads are present, the channel post is ignored. */
  lemma MessageTakesPrecedence(s: Store, u: TelegramUpdate, now: Instant, writeFails: bool)
    requires u.message.Some?
    ensures HandleUpdate(s, u, now, writeFails) == HandleUpdate(s, u.(channelPost := None), now, writeFails)
  {
  }

  /** A media post with only a caption is stored with empty text. */
  lemma CaptionIsNotStored(s: Store, m: RawMessage, updateId: int, now: Instant)
    requires m.text == "" && m.caption != ""
    ensures var u := TelegramUpdate(updateId, None, Some(m));
      var r := HandleUpdate(s, u, now, false);
      DocId(m.chat.id, m.messageId) in r && r[DocId(m.chat.id, m.messageId)].text == ""
  {
  }

  /**
    Redelivery overwrites: writing the same update twice leaves one record
    at its ID, exactly the one the second write would leave alone, including
    over any processing state the first copy had reached in between.
   */
  lemma RedeliveryOverwrites(s: Store, between: Store, u: TelegramUpdate, t1: Instant, t2: Instant)
    requires ToRecord(u, t1).Some?
    requires between.Keys == HandleUpdate(s, u, t1, false).Keys
    requires forall k :: k in between && k != ToRecord(u, t1).value.0 ==> between[k] == s[k]
    ensures HandleUpdate(between, u, t2, false) == HandleUpdate(s, u, t2, false)
  {
    var id := ToRecord(u, t1).value.0;
    assert ToRecord(u, t2).value.0 == id;
  }

  /** Ingestion keeps the store invariant. */
  lemma IngestionPreservesValid(p: Primitives, s: Store, u: TelegramUpdate, now: Instant, writeFails: bool)
    requires Valid(p, s)
    ensures Valid(p, HandleUpdate(s, u, now, writeFails))
  {
    var r := HandleUpdate(s, u, now, writeFails);
    if ToRecord(u, now).Some? && !writeFails {
      var id := ToRecord(u, now).value.0;
      assert Pristine(r[id]);
      forall a, b | a in r && b in r && r[a].isForwarded && r[b].isForwarded && r[a].fingerprint == r[b].fingerprint
        ensures a == b
      {
        assert a != id && b != id;
      }
    }
  }
}
