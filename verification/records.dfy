/**
  The persisted message record, the inbound update it is built from, and the
  document ID that keys it.
 */
module Records {
  import opened Wrappers
  import opened Text

  /** An opaque point in time (Go's `time.Time`), as nanoseconds since the Unix epoch. */
  datatype Instant = Instant(unixNanos: int)

  /** `time.Unix(seconds, 0)`. */
  function FromUnixSeconds(seconds: int): Instant {
    Instant(seconds * 1_000_000_000)
  }

  /** `TelegramMessage`: one stored document of the message collection. */
  datatype Record = Record(
    channelId: int,
    channelName: string,
    messageId: int,
    text: string,
    messageTimestamp: Instant,
    receivedAt: Instant,
    isProcessed: bool,
    isRelevant: Option<bool>,
    processedAt: Option<Instant>,
    fingerprint: Option<string>,
    isForwarded: bool)

  datatype Chat = Chat(id: int, title: string, kind: string)

  datatype Photo = Photo(fileId: string)

  datatype Document = Document(fileId: string, fileName: string, mimeType: string)

  /** `TelegramMessageRaw`: a decoded message or channel post; absent strings are empty. */
  datatype RawMessage = RawMessage(
    messageId: int,
    date: int,
    text: string,
    caption: string,
    chat: Chat,
    photos: seq<Photo>,
    document: Option<Document>)

  /** `TelegramUpdate`: at most one of the two payloads is normally present. */
  datatype TelegramUpdate = TelegramUpdate(
    updateId: int,
    message: Option<RawMessage>,
    channelPost: Option<RawMessage>)

  /** `fmt.Sprintf("%d_%d", chatID, messageID)`. */
  function DocId(chatId: int, messageId: int): string {
    Decimal(chatId) + "_" + Decimal(messageId)
  }

  /** Splits a document ID at its first underscore and parses both halves. */
  function ParseDocId(s: string): Option<(int, int)> {
    var k := IndexOf(s, '_');
    if k == |s| then None
    else match (ParseDecimal(s[..k]), ParseDecimal(s[k + 1..]))
      case (Some(c), Some(m)) => Some((c, m))
      case _ => None
  }

  /** Parsing recovers the chat and message IDs a document ID was built from. */
  lemma DocIdRoundTrip(chatId: int, messageId: int)
    ensures ParseDocId(DocId(chatId, messageId)) == Some((chatId, messageId))
  {
    var c, m := Decimal(chatId), Decimal(messageId);
    var s := DocId(chatId, messageId);
    assert forall i :: 0 <= i < |c| ==> s[i] == c[i] && c[i] != '_';
    assert s[|c|] == '_';
    var k := IndexOf(s, '_');
    assert k == |c|;
    assert s[..k] == c;
    assert s[k + 1..] == m;
    DecimalRoundTrip(chatId);
    DecimalRoundTrip(messageId);
  }

  /** Two messages share a document ID only when they have the same chat and message IDs. */
  lemma DocIdInjective(c1: int, m1: int, c2: int, m2: int)
    ensures DocId(c1, m1) == DocId(c2, m2) <==> c1 == c2 && m1 == m2
  {
    DocIdRoundTrip(c1, m1);
    DocIdRoundTrip(c2, m2);
  }
}
