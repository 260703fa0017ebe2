/** The parsing half of `record_message`: message segments become the
    mention list, reply metadata becomes the reply fields, and the event
    becomes a `Record` (plus the synthesized record of the quoted message). */
module Extraction {
  import opened Records

  /** A message segment. Only `at` segments matter here; a missing `qq`
      field is the empty id, as `seg.data.get("qq", "")` yields. `Other`
      stands for every segment whose type is not `"at"`, so its `kind` is
      never `"at"`. */
  datatype Segment = At(qq: string) | Other(kind: string)

  /** The sender fields the recorder reads; an empty `card` stands for a
      card that is absent or empty, both falsy in `card or nickname`. */
  datatype Sender = Sender(userId: string, card: string, nickname: string)

  /** The message an event quotes (`event.reply`). */
  datatype Reply = Reply(sender: Sender, message: string)

  /** An inbound message event. `groupId` is present exactly for group
      message events; `text` is the string form of the whole message. */
  datatype MessageEvent = MessageEvent(
    sender: Sender,
    groupId: Option<string>,
    segments: seq<Segment>,
    text: string,
    reply: Option<Reply>)

  /** The non-empty `qq` ids of the `at` segments, in segment order,
      duplicates kept. */
  function AtList(segs: seq<Segment>): (r: seq<string>)
    ensures |r| <= |segs|
    ensures forall u :: u in r ==> u != ""
    decreases |segs|
  {
    if segs == [] then []
    else
      (if segs[0].At? && segs[0].qq != "" then [segs[0].qq] else [])
      + AtList(segs[1..])
  }

  /** A user id is in the mention list exactly when some `at` segment
      names it and it is not empty. */
  lemma {:induction false} AtListMembership(segs: seq<Segment>, u: string)
    ensures u in AtList(segs) <==> u != "" && At(u) in segs
    decreases |segs|
  {
    if segs != [] {
      AtListMembership(segs[1..], u);
      assert segs == [segs[0]] + segs[1..];
    }
  }

  /** Every non-empty mention is listed once per `at` segment naming it. */
  lemma {:induction false} AtListMultiplicity(segs: seq<Segment>, u: string)
    ensures multiset(AtList(segs))[u] == if u == "" then 0 else multiset(segs)[At(u)]
    decreases |segs|
  {
    if segs != [] {
      AtListMultiplicity(segs[1..], u);
      assert segs == [segs[0]] + segs[1..];
    }
  }

  /** Extraction works segment by segment, so it keeps segment order. */
  lemma {:induction false} AtListConcat(a: seq<Segment>, b: seq<Segment>)
    ensures AtList(a + b) == AtList(a) + AtList(b)
    decreases |a|
  {
    if a == [] {
      assert a + b == b;
    } else {
      assert (a + b)[1..] == a[1..] + b;
      AtListConcat(a[1..], b);
    }
  }

  /** How many times an event names `u` as a recipient: once per `at`
      segment naming it, and once more when it quotes a message by `u`.
      The empty id names nobody. */
  function TimesNamed(e: MessageEvent, u: string): nat {
    if u == "" then 0
    else multiset(e.segments)[At(u)] + (if e.reply.Some? && e.reply.value.sender.userId == u then 1 else 0)
  }

  /** Python's `card or nickname`. */
  function DisplayName(card: string, nickname: string): (r: string)
    ensures card != "" ==> r == card
    ensures card == "" ==> r == nickname
  {
    if card != "" then card else nickname
  }

  /** The sender name stored for an event: the card is preferred only for
      group messages. */
  function SenderName(e: MessageEvent): (r: string)
    ensures e.groupId.None? ==> r == e.sender.nickname
    ensures e.groupId.Some? && e.sender.card != "" ==> r == e.sender.card
    ensures e.groupId.Some? && e.sender.card == "" ==> r == e.sender.nickname
  {
    if e.groupId.Some? then DisplayName(e.sender.card, e.sender.nickname)
    else e.sender.nickname
  }

  /** The record built for the event itself at clock reading `now`. */
  function BuildRecord(e: MessageEvent, now: int): (r: Record)
    ensures r.time == now && r.userId == e.sender.userId && r.rawMessage == e.text
    ensures r.atList == AtList(e.segments)
    ensures forall u :: u in r.atList <==> u != "" && At(u) in e.segments
    ensures r.isReply <==> e.reply.Some?
    ensures e.reply.Some? ==> r.replyUserId == Some(e.reply.value.sender.userId)
    ensures e.reply.None? ==> r.replyUserId == None
    ensures r.groupId == e.groupId
    ensures r.senderName == SenderName(e)
  {
    forall u ensures u in AtList(e.segments) <==> u != "" && At(u) in e.segments {
      AtListMembership(e.segments, u);
    }
    Record(
      now,
      e.sender.userId,
      e.text,
      AtList(e.segments),
      e.reply.Some?,
      if e.reply.Some? then Some(e.reply.value.sender.userId) else None,
      e.groupId,
      SenderName(e))
  }

  /** The record synthesized for the quoted message: it carries the quoted
      sender and content, but the current clock reading, no mentions and no
      reply of its own. */
  function QuotedRecord(q: Reply, groupId: Option<string>, now: int): (r: Record)
    ensures r.time == now && r.userId == q.sender.userId && r.rawMessage == q.message
    ensures r.atList == [] && !r.isReply && r.replyUserId == None
    ensures r.groupId == groupId
    ensures r.senderName == DisplayName(q.sender.card, q.sender.nickname)
  {
    Record(now, q.sender.userId, q.message, [], false, None, groupId,
           DisplayName(q.sender.card, q.sender.nickname))
  }
}
