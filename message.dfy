/**
 * The stored chat message (backend/models/Message.js): the constraints the
 * schema puts on a document, the defaults it fills in, and the
 * `conversationKey` virtual that names the conversation of two participants.
 */
module MessageModel {
  import opened Wrappers
  import opened JsString

  // ---------------------------------------------------------------------------
  // conversationKey

  /** JavaScript `<` on strings (the order of the default `sort`), on characters. */
  predicate LexLess(a: string, b: string)
    decreases |a|
  {
    if a == [] then b != []
    else if b == [] then false
    else if a[0] != b[0] then a[0] < b[0]
    else LexLess(a[1..], b[1..])
  }

  /** `[senderId, receiverId].sort().join('_')` */
  function ConversationKey(senderId: string, receiverId: string): string {
    if LexLess(receiverId, senderId) then receiverId + "_" + senderId
    else senderId + "_" + receiverId
  }

  /** Two different strings are ordered one way or the other, never both. */
  lemma {:induction false} LexTotal(a: string, b: string)
    ensures a != b ==> LexLess(a, b) != LexLess(b, a)
    decreases |a|
  {
    if a != [] && b != [] && a[0] == b[0] {
      LexTotal(a[1..], b[1..]);
      assert a == [a[0]] + a[1..] && b == [b[0]] + b[1..];
    }
  }

  /** `lo, hi` is `a, b` in sorted order. */
  predicate SortedPair(lo: string, hi: string, a: string, b: string) {
    ((lo == a && hi == b) || (lo == b && hi == a)) && !LexLess(hi, lo)
  }

  /**
   * The key is the smaller id, `_`, the larger id, whichever of the two is
   * the sender.
   */
  lemma ConversationKeySorted(a: string, b: string, lo: string, hi: string)
    requires SortedPair(lo, hi, a, b)
    ensures ConversationKey(a, b) == lo + "_" + hi
  {
    LexTotal(a, b);
  }

  /** Swapping sender and receiver names the same conversation. */
  lemma ConversationKeySymmetric(a: string, b: string)
    ensures ConversationKey(a, b) == ConversationKey(b, a)
  {
    LexTotal(a, b);
  }

  /** Ids without `_` can be read back from the key: distinct pairs get distinct keys. */
  lemma ConversationKeyInjective(a: string, b: string, c: string, d: string)
    requires '_' !in a && '_' !in b && '_' !in c && '_' !in d
    requires ConversationKey(a, b) == ConversationKey(c, d)
    ensures multiset{a, b} == multiset{c, d}
  {
    var lo1 := if LexLess(b, a) then b else a;
    var hi1 := if LexLess(b, a) then a else b;
    var lo2 := if LexLess(d, c) then d else c;
    var hi2 := if LexLess(d, c) then c else d;
    SplitAtSeparator(lo1, hi1, lo2, hi2);
  }

  lemma SplitAtSeparator(x: string, y: string, x': string, y': string)
    requires '_' !in x && '_' !in x'
    requires x + "_" + y == x' + "_" + y'
    ensures x == x' && y == y'
  {
    var s := x + "_" + y;
    assert s == x' + "_" + y';
    // the separator is the first `_` of the key, on either reading
    assert s[|x|] == '_' && forall k :: 0 <= k < |x| ==> s[k] == x[k];
    assert s[|x'|] == '_' && forall k :: 0 <= k < |x'| ==> s[k] == x'[k];
    assert forall k :: 0 <= k < |x| ==> x[k] != '_';
    assert forall k :: 0 <= k < |x'| ==> x'[k] != '_';
    assert |x| == |x'|;
    assert x == s[..|x|] && x' == s[..|x'|];
    assert y == s[|x| + 1..] && y' == s[|x'| + 1..];
  }

  /** With an `_` inside an id, two different pairs can share a key. */
  lemma ConversationKeyAmbiguous()
    ensures ConversationKey("a_b", "c") == ConversationKey("a", "b_c")
  {
  }

  // ---------------------------------------------------------------------------
  // the schema

  /** The fields given to `new Message({...})`; `None` is a field left out. */
  datatype MessageInput = MessageInput(
    conversationId: Option<string>,
    sender: Option<string>,
    senderId: Option<string>,
    receiverId: Option<string>,
    content: Option<string>,
    messageType: Option<string>,
    isRead: Option<bool>,
    isBroadcast: Option<bool>)

  /** The document after casting: defaults filled in, `content` trimmed. */
  datatype MessageDoc = MessageDoc(
    conversationId: Option<string>,
    sender: Option<string>,
    senderId: Option<string>,
    receiverId: Option<string>,
    content: Option<string>,
    messageType: string,
    isRead: bool,
    isBroadcast: bool)

  const Senders: set<string> := {"user", "admin"}
  const MessageTypes: set<string> := {"text", "file", "image", "broadcast"}

  /** Building the document: `trim` on `content`, defaults for the fields left out. */
  function Cast(input: MessageInput): (d: MessageDoc)
    ensures input.messageType.None? ==> d.messageType == "text"
    ensures input.isRead.None? ==> !d.isRead
    ensures input.isBroadcast.None? ==> !d.isBroadcast
  {
    MessageDoc(
      input.conversationId, input.sender, input.senderId, input.receiverId,
      if input.content.Some? then Some(Trim(input.content.value)) else None,
      input.messageType.GetOr("text"),
      input.isRead.GetOr(false),
      input.isBroadcast.GetOr(false))
  }

  /** A `required` string path fails when absent or empty. */
  predicate Present(v: Option<string>) {
    v.Some? && v.value != ""
  }

  /** The paths that fail validation. */
  function ValidationErrors(d: MessageDoc): set<string> {
    (if Present(d.conversationId) then {} else {"conversationId"})
    + (if Present(d.sender) && d.sender.value in Senders then {} else {"sender"})
    + (if Present(d.senderId) then {} else {"senderId"})
    + (if Present(d.receiverId) then {} else {"receiverId"})
    + (if Present(d.content) then {} else {"content"})
    + (if d.messageType in MessageTypes then {} else {"messageType"})
  }

  predicate IsValid(d: MessageDoc) {
    ValidationErrors(d) == {}
  }

  /**
   * A message saves exactly when the five required fields are given, the
   * content holds more than white space, the sender is `user` or `admin`, and
   * the type, if given, is one of the four kinds.
   */
  lemma ValidMessageIff(input: MessageInput)
    ensures IsValid(Cast(input)) <==>
      && Present(input.conversationId)
      && input.sender.Some? && input.sender.value in Senders
      && Present(input.senderId)
      && Present(input.receiverId)
      && input.content.Some?
      && (exists k :: 0 <= k < |input.content.value| && !IsWhitespace(input.content.value[k]))
      && (input.messageType.None? || input.messageType.value in MessageTypes)
  {
    if input.content.Some? {
      TrimEmptyIff(input.content.value);
    }
    var d := Cast(input);
    if IsValid(d) {
      assert "conversationId" !in ValidationErrors(d);
      assert "sender" !in ValidationErrors(d);
      assert "senderId" !in ValidationErrors(d);
      assert "receiverId" !in ValidationErrors(d);
      assert "content" !in ValidationErrors(d);
      assert "messageType" !in ValidationErrors(d);
    }
  }

  /** A valid document's enum fields hold one of their allowed values. */
  lemma ValidEnums(d: MessageDoc)
    requires IsValid(d)
    ensures d.sender.Some? && d.sender.value in Senders
    ensures d.messageType in MessageTypes
  {
  }
}
