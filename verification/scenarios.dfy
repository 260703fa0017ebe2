/** Worked examples of the recorder and the query: a mention, a reply,
    expiry, and the cap running before the group filter. */
module Scenarios {
  import opened Seqs
  import opened Records
  import opened Extraction
  import opened NewestFirst
  import opened MessageRecorder
  import opened WhoAsked

  /** A user says "hello @u" in group g, recorded on an empty index: u
      asking in g gets that message from its author. */
  lemma MentionScenario(author: Sender, u: string, g: string, text: string,
                        now: int, storageDays: int, maxMessages: int, card: string, nickname: string)
    requires u != ""
    requires 1 <= storageDays && 1 <= maxMessages
    ensures
      var e := MessageEvent(author, Some(g), [Other("text"), At(u)], text, None);
      var after := RecordMessage(map[], e, now, storageDays).index;
      var o := ProcessQuery(after, Querier(u, g, card, nickname, "谁问我了"), maxMessages);
      o.Forward? && o.nodes[1].uin == author.userId
  {
    var e := MessageEvent(author, Some(g), [Other("text"), At(u)], text, None);
    assert e.segments[1] == At(u);
    assert TimesNamed(e, u) >= 1;
    NamedRecipientIsReported(map[], e, now, storageDays, Querier(u, g, card, nickname, "谁问我了"), maxMessages);
  }

  /** The same message, with u asking from another group: nobody asked
      there, although u has a record. */
  lemma MentionElsewhereScenario(author: Sender, u: string, g: string, elsewhere: string, text: string,
                                 now: int, storageDays: int, maxMessages: int, card: string, nickname: string)
    requires u != "" && g != elsewhere
    requires 1 <= storageDays && 1 <= maxMessages
    ensures
      var e := MessageEvent(author, Some(g), [Other("text"), At(u)], text, None);
      var after := RecordMessage(map[], e, now, storageDays).index;
      ProcessQuery(after, Querier(u, elsewhere, card, nickname, "谁问我了"), maxMessages) == NobodyAskedHere
  {
    var e := MessageEvent(author, Some(g), [Other("text"), At(u)], text, None);
    var after := RecordMessage(map[], e, now, storageDays).index;
    var rec := BuildRecord(e, now);
    assert e.segments[1] == At(u);
    assert TimesNamed(e, u) >= 1;
    RecordMessageIndexesRecipient(map[], e, now, storageDays, u);
    GetAtMessagesNewestFirst(after, u, maxMessages, rec);
    var got := GetAtMessages(after, u, maxMessages);
    assert forall x :: x in got ==> !Addressed(u, elsewhere)(x) by {
      forall x | x in got ensures !Addressed(u, elsewhere)(x) {
        assert x in Lookup(after, u);
        assert x == rec;
      }
    }
    FilterEmpty(got, Addressed(u, elsewhere));
  }

  /** A user replies to a message by `quoted` in group g, with no mention,
      recorded on an empty index. `quoted` asking in g gets exactly one
      node after its own, the reply, labelled as a reply: the record
      synthesized for the quoted message is stored under nobody. */
  lemma ReplyScenario(author: Sender, quoted: Sender, g: string, text: string, quotedText: string,
                      now: int, storageDays: int, maxMessages: int)
    requires quoted.userId != ""
    requires 1 <= storageDays && 1 <= maxMessages
    ensures
      var e := MessageEvent(author, Some(g), [Other("text")], text, Some(Reply(quoted, quotedText)));
      var after := RecordMessage(map[], e, now, storageDays).index;
      var o := ProcessQuery(after, Querier(quoted.userId, g, quoted.card, quoted.nickname, "谁问我了"), maxMessages);
      && o.Forward? && |o.nodes| == 2
      && o.nodes[1].uin == author.userId
      && ParseContent(o.nodes[1].content) == Some(Content(true, text))
  {
    var u := quoted.userId;
    var e := MessageEvent(author, Some(g), [Other("text")], text, Some(Reply(quoted, quotedText)));
    var q := Querier(u, g, quoted.card, quoted.nickname, "谁问我了");
    var after := RecordMessage(map[], e, now, storageDays).index;
    var rec := BuildRecord(e, now);
    var keep := Unexpired(ExpireTime(now, storageDays));
    assert multiset(e.segments)[At(u)] == 0;
    assert TimesNamed(e, u) == 1;
    NamedRecipientIsReported(map[], e, now, storageDays, q, maxMessages);
    assert keep(rec);
    FilterRepeat(rec, 1, keep);
    assert [] + Repeat(rec, 1) == Repeat(rec, 1);
    assert |Lookup(after, u)| == 1;
    assert |GetAtMessages(after, u, maxMessages)| == 1;
    ContentRoundTrip(rec);
  }

  /** With a one-day window, a record 90000 seconds old is gone after the
      next write, and a recipient left with nothing is dropped. */
  lemma RetentionScenario(stale: Record)
    requires stale.time == 1000000 - 90000
    ensures
      var e := MessageEvent(Sender("U1", "", "u1"), Some("G1"), [Other("text")], "hi", None);
      RecordMessage(map["U2" := [stale]], e, 1000000, 1).index == map[]
  {
    var e := MessageEvent(Sender("U1", "", "u1"), Some("G1"), [Other("text")], "hi", None);
    var idx := map["U2" := [stale]];
    UnaddressedMessageOnlyPrunes(idx, e, 1000000, 1);
    var clean := CleanOldMessages(idx, 1000000, 1);
    var keep := Unexpired(ExpireTime(1000000, 1));
    assert !keep(stale);
    assert Filter([stale], keep) == [];
    forall u ensures Lookup(clean, u) == Lookup(map[], u) {
      assert Lookup(idx, u) == [] || Lookup(idx, u) == [stale];
    }
    LookupDetermines(clean, map[]);
  }

  /** The cap runs before the group filter: with room for one record, a
      newer mention from G2 hides an older one from G1. */
  lemma CapBeforeFilterScenario(inG1: Record, inG2: Record)
    requires inG1.groupId == Some("G1") && inG1.atList == ["U"] && inG1.time == 100
    requires inG2.groupId == Some("G2") && inG2.atList == ["U"] && inG2.time == 200
    ensures ProcessQuery(map["U" := [inG1, inG2]], Querier("U", "G1", "", "u", "谁问我了"), 1) == NobodyAskedHere
    ensures ProcessQuery(map["U" := [inG1, inG2]], Querier("U", "G1", "", "u", "谁问我了"), 2).Forward?
  {
    var idx := map["U" := [inG1, inG2]];
    var q := Querier("U", "G1", "", "u", "谁问我了");
    GetAtMessagesNewestFirst(idx, "U", 1, inG2);
    var one := GetAtMessages(idx, "U", 1);
    assert one == [inG2];
    assert !Addressed("U", "G1")(inG2);
    assert Filter(one, Addressed("U", "G1")) == [];
    var two := GetAtMessages(idx, "U", 2);
    assert multiset(two) == multiset([inG1, inG2]) by {
      assert |multiset(two)| == 2;
      assert multiset(two) <= multiset([inG1, inG2]);
    }
    assert inG1 in multiset(two);
    RelevantComplete(idx, q, 2, inG1);
  }
}
