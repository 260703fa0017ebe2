/** The `谁问我了` command: the uninitialized guard of `handle_who_at_me`
    and `process_query`, which fetches the capped newest-first list, keeps
    the records addressed to the querier in the current group, and shapes
    them into forward-message nodes. Sending the nodes is left out. */
module WhoAsked {
  import opened Seqs
  import opened Records
  import opened Extraction
  import opened NewestFirst
  import opened MessageRecorder

  /** The group member who sent the command. */
  datatype Querier = Querier(userId: string, groupId: string, card: string, nickname: string, text: string)

  /** One node of a forwarded message: display name, account id, text. */
  datatype Node = Node(name: string, uin: string, content: string)

  /** What the command replies with. The two "nobody asked" outcomes are
      distinct: no records at all, or none addressed here. */
  datatype Outcome =
    | NotInitialized
    | NobodyAsked
    | NobodyAskedHere
    | Forward(nodes: seq<Node>)

  /** Selects the records from group `group` that mention `user` or reply
      to `user`. */
  function Addressed(user: string, group: string): (p: Record -> bool)
    ensures forall m: Record :: p(m) ==> m.groupId == Some(group)
    ensures forall m: Record :: m.groupId == Some(group) && user in m.atList ==> p(m)
    ensures forall m: Record :: m.groupId == Some(group) && m.isReply && m.replyUserId == Some(user) ==> p(m)
    ensures forall m: Record :: p(m) && user !in m.atList ==> m.isReply && m.replyUserId == Some(user)
  {
    (m: Record) => m.groupId == Some(group) && (user in m.atList || (m.isReply && m.replyUserId == Some(user)))
  }

  const ReplyLabel: string := "【引用了你的消息】\n"
  const MentionLabel: string := "【@了你】\n"

  /** The text of a record's node: a label saying how the querier was
      addressed, then the raw message. */
  function NodeContent(m: Record): (c: string)
    ensures ParseContent(c) == Some(Content(m.isReply, m.rawMessage))
  {
    ContentRoundTrip(m);
    (if m.isReply then ReplyLabel else MentionLabel) + m.rawMessage
  }

  /** How a node's text was labelled, and the message after the label. */
  datatype Content = Content(isReply: bool, rawMessage: string)

  /** Reads a node's text back; `None` when it carries neither label. */
  function ParseContent(c: string): (r: Option<Content>)
    ensures r.Some? ==> (if r.value.isReply then ReplyLabel else MentionLabel) + r.value.rawMessage == c
  {
    if ReplyLabel <= c then
      assert c == ReplyLabel + c[|ReplyLabel|..];
      Some(Content(true, c[|ReplyLabel|..]))
    else if MentionLabel <= c then
      assert c == MentionLabel + c[|MentionLabel|..];
      Some(Content(false, c[|MentionLabel|..]))
    else None
  }

  /** The label tells a reply from a mention and the raw message follows
      it unchanged. */
  lemma ContentRoundTrip(m: Record)
    ensures ParseContent((if m.isReply then ReplyLabel else MentionLabel) + m.rawMessage)
         == Some(Content(m.isReply, m.rawMessage))
  {
    var c := (if m.isReply then ReplyLabel else MentionLabel) + m.rawMessage;
    if m.isReply {
      assert c[..|ReplyLabel|] == ReplyLabel;
      assert c[|ReplyLabel|..] == m.rawMessage;
    } else {
      assert c[1] == '@' && ReplyLabel[1] != '@';
      assert !(ReplyLabel <= c);
      assert c[..|MentionLabel|] == MentionLabel;
      assert c[|MentionLabel|..] == m.rawMessage;
    }
  }

  /** The node for one stored record. */
  function RecordNode(m: Record): (n: Node)
    ensures n.name == m.senderName && n.uin == m.userId
    ensures ParseContent(n.content) == Some(Content(m.isReply, m.rawMessage))
  {
    Node(m.senderName, m.userId, NodeContent(m))
  }

  /** The querier's own node, which opens the forward: their display name
      in the group, their id, and the command message itself. */
  function QuerierNode(q: Querier): (n: Node)
    ensures n.uin == q.userId && n.content == q.text
    ensures q.card != "" ==> n.name == q.card
    ensures q.card == "" ==> n.name == q.nickname
  {
    Node(DisplayName(q.card, q.nickname), q.userId, q.text)
  }

  /** The generator of `process_query`, applied to the already-capped list. */
  function Relevant(idx: Index, q: Querier, maxMessages: int): (r: seq<Record>)
    ensures forall m :: m in r ==> m in GetAtMessages(idx, q.userId, maxMessages)
    ensures forall m :: m in r ==>
      m.groupId == Some(q.groupId) && (q.userId in m.atList || (m.isReply && m.replyUserId == Some(q.userId)))
    ensures forall m :: (multiset(r)[m] ==
      if Addressed(q.userId, q.groupId)(m) then multiset(GetAtMessages(idx, q.userId, maxMessages))[m] else 0)
  {
    var got := GetAtMessages(idx, q.userId, maxMessages);
    var r := Filter(got, Addressed(q.userId, q.groupId));
    assert forall m :: m in r ==> Addressed(q.userId, q.groupId)(m);
    forall m
      ensures multiset(r)[m] == if Addressed(q.userId, q.groupId)(m) then multiset(got)[m] else 0
    {
      FilterMultiplicity(got, Addressed(q.userId, q.groupId), m);
    }
    r
  }

  /** The forward: the querier's node, then one node per reported record,
      in order, each labelled as a reply or a mention. */
  function ForwardNodes(q: Querier, f: seq<Record>): (nodes: seq<Node>)
    ensures |nodes| == 1 + |f|
    ensures nodes[0] == QuerierNode(q)
    ensures forall i :: 0 <= i < |f| ==>
      nodes[i + 1].name == f[i].senderName && nodes[i + 1].uin == f[i].userId
      && ParseContent(nodes[i + 1].content) == Some(Content(f[i].isReply, f[i].rawMessage))
  {
    var nodes := [QuerierNode(q)] + seq(|f|, i requires 0 <= i < |f| => RecordNode(f[i]));
    assert forall i :: 0 <= i < |f| ==> nodes[i + 1] == RecordNode(f[i]);
    nodes
  }

  /** `process_query`: "nobody asked" when the capped list is empty, "nobody
      asked here" when none of it is addressed to the querier in this group,
      otherwise the forward of the addressed records. */
  function ProcessQuery(idx: Index, q: Querier, maxMessages: int): (o: Outcome)
    ensures o != NotInitialized
    ensures o == NobodyAsked <==> GetAtMessages(idx, q.userId, maxMessages) == []
    ensures o == NobodyAskedHere
        <==> GetAtMessages(idx, q.userId, maxMessages) != [] && Relevant(idx, q, maxMessages) == []
    ensures o.Forward? <==> Relevant(idx, q, maxMessages) != []
    ensures o.Forward? ==> o.nodes == ForwardNodes(q, Relevant(idx, q, maxMessages))
  {
    if GetAtMessages(idx, q.userId, maxMessages) == [] then NobodyAsked
    else
      var f := Relevant(idx, q, maxMessages);
      if f == [] then NobodyAskedHere
      else Forward(ForwardNodes(q, f))
  }

  /** `handle_who_at_me`: before the recorder exists the command answers
      that it is not initialized and runs no query. */
  function HandleWhoAtMe(recorder: Option<Index>, q: Querier, maxMessages: int): (o: Outcome)
    ensures o == NotInitialized <==> recorder.None?
    ensures recorder.Some? ==> o == ProcessQuery(recorder.value, q, maxMessages)
  {
    match recorder
    case None => NotInitialized
    case Some(idx) => ProcessQuery(idx, q, maxMessages)
  }

  /** Every record of the capped list that is addressed to the querier in
      this group is reported, once per time the list holds it. */
  lemma RelevantComplete(idx: Index, q: Querier, maxMessages: int, m: Record)
    requires m in GetAtMessages(idx, q.userId, maxMessages)
    requires m.groupId == Some(q.groupId)
    requires q.userId in m.atList || (m.isReply && m.replyUserId == Some(q.userId))
    ensures m in Relevant(idx, q, maxMessages)
    ensures multiset(Relevant(idx, q, maxMessages))[m] == multiset(GetAtMessages(idx, q.userId, maxMessages))[m]
  {
    FilterMembership(GetAtMessages(idx, q.userId, maxMessages), Addressed(q.userId, q.groupId), m);
  }

  /** The reported records appear in the order of the capped list. */
  lemma RelevantKeepsOrder(idx: Index, q: Querier, maxMessages: int)
    ensures SubsequenceOf(Relevant(idx, q, maxMessages), GetAtMessages(idx, q.userId, maxMessages))
    ensures Sorted(Relevant(idx, q, maxMessages))
  {
    var g := GetAtMessages(idx, q.userId, maxMessages);
    var f := Relevant(idx, q, maxMessages);
    FilterSubsequence(g, Addressed(q.userId, q.groupId));
    SubsequenceOfSorted(f, g);
  }

  /** A subsequence of a sorted list is sorted. */
  lemma {:induction false} SubsequenceOfSorted(a: seq<Record>, b: seq<Record>)
    requires SubsequenceOf(a, b) && Sorted(b)
    ensures Sorted(a)
    ensures forall x :: x in a ==> x in b
    decreases |b|
  {
    if a != [] {
      assert b != [];
      if a[0] == b[0] && SubsequenceOf(a[1..], b[1..]) {
        SubsequenceOfSorted(a[1..], b[1..]);
        assert a == [a[0]] + a[1..];
        forall y | y in a[1..] ensures a[0].time >= y.time {
          assert y in b[1..];
          var j :| 0 <= j < |b[1..]| && b[1..][j] == y;
          assert b[j + 1] == y;
        }
        SortedCons(a[0], a[1..]);
      } else {
        SubsequenceOfSorted(a, b[1..]);
      }
    }
  }

  /** The cap is applied before the group filter, so at most `maxMessages`
      records are reported whatever the group. */
  lemma RelevantCapped(idx: Index, q: Querier, maxMessages: int)
    requires 0 <= maxMessages
    ensures |Relevant(idx, q, maxMessages)| <= maxMessages
  {
  }

  /** Records from a message outside any group are never reported. */
  lemma PrivateNeverReported(idx: Index, q: Querier, maxMessages: int, m: Record)
    requires m.groupId == None
    ensures m !in Relevant(idx, q, maxMessages)
  {
  }

  /** Recording a group message that names the querier (an `at` segment
      or a quote of the querier's message), when the querier has no record
      that new, makes the querier's next query in that group open with it. */
  lemma NamedRecipientIsReported(idx: Index, e: MessageEvent, now: int, storageDays: int,
                                 q: Querier, maxMessages: int)
    requires e.segments != [] && e.groupId == Some(q.groupId)
    requires TimesNamed(e, q.userId) >= 1
    requires 0 < storageDays && 1 <= maxMessages
    requires forall m :: m in Lookup(idx, q.userId) ==> m.time < now
    ensures var o := ProcessQuery(RecordMessage(idx, e, now, storageDays).index, q, maxMessages);
      o.Forward? && |o.nodes| >= 2 && o.nodes[1] == RecordNode(BuildRecord(e, now))
  {
    var rec := BuildRecord(e, now);
    var after := RecordMessage(idx, e, now, storageDays).index;
    RecordMessageIndexesRecipient(idx, e, now, storageDays, q.userId);
    GetAtMessagesNewestFirst(after, q.userId, maxMessages, rec);
    assert q.userId in rec.atList || (rec.isReply && rec.replyUserId == Some(q.userId)) by {
      if multiset(e.segments)[At(q.userId)] >= 1 {
        assert At(q.userId) in e.segments;
      }
    }
    RelevantHead(after, q, maxMessages, rec);
  }

  /** When the capped list opens with a record addressed to the querier
      here, so does the report. */
  lemma RelevantHead(idx: Index, q: Querier, maxMessages: int, rec: Record)
    requires GetAtMessages(idx, q.userId, maxMessages) != []
    requires GetAtMessages(idx, q.userId, maxMessages)[0] == rec
    requires rec.groupId == Some(q.groupId)
    requires q.userId in rec.atList || (rec.isReply && rec.replyUserId == Some(q.userId))
    ensures ProcessQuery(idx, q, maxMessages).Forward?
    ensures ProcessQuery(idx, q, maxMessages).nodes[1] == RecordNode(rec)
  {
    var got := GetAtMessages(idx, q.userId, maxMessages);
    var p := Addressed(q.userId, q.groupId);
    assert p(rec);
    assert got == [rec] + got[1..];
    assert Filter(got, p) == [rec] + Filter(got[1..], p);
  }
}
