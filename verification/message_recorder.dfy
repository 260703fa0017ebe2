/** `MessageRecorder`: the write path (`record_message`, `_record_for_users`,
    `_clean_old_messages`) and the read path (`get_at_messages`) over the
    recipient index. Each `record_message` call is one atomic step, as the
    recorder's lock makes it; the clock, the retention window and the result
    cap are parameters. */
module MessageRecorder {
  import opened Seqs
  import opened Records
  import opened Extraction
  import opened NewestFirst

  const SecondsPerDay: int := 86400

  /** Records at or before this instant are expired. A record stamped
      `now` survives exactly when the window is positive. */
  function ExpireTime(now: int, storageDays: int): (expire: int)
    ensures expire < now <==> 0 < storageDays
  {
    now - storageDays * SecondsPerDay
  }

  /** A record survives pruning exactly when it is less than
      `storageDays` whole days old. */
  lemma UnexpiredWithinWindow(now: int, storageDays: int, m: Record)
    ensures Unexpired(ExpireTime(now, storageDays))(m) <==> now - m.time < storageDays * 86400
  {
  }

  /** Selects the records newer than `expire`. */
  function Unexpired(expire: int): Record -> bool {
    (r: Record) => r.time > expire
  }

  /** The ids a record is appended under: every mention, once per
      occurrence, then the replied-to id when it is non-empty. */
  function Recipients(atList: seq<string>, replyUserId: Option<string>): (r: seq<string>)
    ensures forall u :: u in r <==> u in atList || (replyUserId == Some(u) && u != "")
    ensures forall u ::
      multiset(r)[u] == multiset(atList)[u] + (if u != "" && replyUserId == Some(u) then 1 else 0)
  {
    atList + (if replyUserId.Some? && replyUserId.value != "" then [replyUserId.value] else [])
  }

  /** `setdefault(u, []).append(rec)` for each `u` of `users` in turn. */
  function AppendUnder(idx: Index, users: seq<string>, rec: Record): (r: Index)
    ensures r.Keys == idx.Keys + (set u | u in users)
    ensures forall u :: Lookup(r, u) == Lookup(idx, u) + Repeat(rec, multiset(users)[u])
    decreases |users|
  {
    if users == [] then idx
    else
      var next := idx[users[0] := Lookup(idx, users[0]) + [rec]];
      var r := AppendUnder(next, users[1..], rec);
      AppendUnderStep(idx, users, rec, next, r);
      r
  }

  /** One step of `AppendUnder`: appending under the first id and then under
      the rest is appending under all of them. */
  lemma AppendUnderStep(idx: Index, users: seq<string>, rec: Record, next: Index, r: Index)
    requires users != []
    requires next == idx[users[0] := Lookup(idx, users[0]) + [rec]]
    requires r.Keys == next.Keys + (set u | u in users[1..])
    requires forall u :: Lookup(r, u) == Lookup(next, u) + Repeat(rec, multiset(users[1..])[u])
    ensures r.Keys == idx.Keys + (set u | u in users)
    ensures forall u :: Lookup(r, u) == Lookup(idx, u) + Repeat(rec, multiset(users)[u])
  {
    assert users == [users[0]] + users[1..];
    forall u
      ensures Lookup(r, u) == Lookup(idx, u) + Repeat(rec, multiset(users)[u])
    {
      AppendUnderStepAt(idx, users, rec, next, u);
    }
  }

  /** `AppendUnderStep` for one id. */
  lemma AppendUnderStepAt(idx: Index, users: seq<string>, rec: Record, next: Index, u: string)
    requires users != []
    requires next == idx[users[0] := Lookup(idx, users[0]) + [rec]]
    ensures Lookup(next, u) + Repeat(rec, multiset(users[1..])[u])
         == Lookup(idx, u) + Repeat(rec, multiset(users)[u])
  {
    assert users == [users[0]] + users[1..];
    assert multiset(users) == multiset{users[0]} + multiset(users[1..]);
    var k := multiset(users[1..])[u];
    if u == users[0] {
      assert Lookup(next, u) == Lookup(idx, u) + [rec];
      assert [rec] + Repeat(rec, k) == Repeat(rec, k + 1);
      assert Lookup(idx, u) + [rec] + Repeat(rec, k) == Lookup(idx, u) + ([rec] + Repeat(rec, k));
    } else {
      assert Lookup(next, u) == Lookup(idx, u);
    }
  }

  /** `_clean_old_messages`: every list keeps only its unexpired records,
      in order, and recipients left with none are removed. */
  function CleanOldMessages(idx: Index, now: int, storageDays: int): (r: Index)
    ensures NoEmptyLists(r)
    ensures r.Keys <= idx.Keys
    ensures forall u, m :: u in r && m in r[u] ==> m.time > ExpireTime(now, storageDays)
    ensures forall u :: Lookup(r, u) == Filter(Lookup(idx, u), Unexpired(ExpireTime(now, storageDays)))
  {
    var keep := Unexpired(ExpireTime(now, storageDays));
    var r := map u | u in idx && Filter(idx[u], keep) != [] :: Filter(idx[u], keep);
    assert forall u, m :: u in r && m in r[u] ==> m.time > ExpireTime(now, storageDays) by {
      forall u, m | u in r && m in r[u]
        ensures m.time > ExpireTime(now, storageDays)
      {
        assert keep(m);
      }
    }
    r
  }

  /** The loop state of `CleanOldMessagesLoop`: keys still `pending` are
      untouched, every other key of `idx` holds its pruned list (or is gone
      when that list is empty). */
  ghost predicate CleanedExcept(idx: Index, keep: Record -> bool, r: Index, pending: set<string>) {
    && pending <= idx.Keys && r.Keys <= idx.Keys
    && (forall u :: u in pending ==> u in r && r[u] == idx[u])
    && (forall u :: u in idx && u !in pending ==> Lookup(r, u) == Filter(idx[u], keep))
    && (forall u :: u in r && u !in pending ==> r[u] != [])
  }

  /** Pruning one pending key keeps the loop state. */
  lemma CleanOneKey(idx: Index, keep: Record -> bool, r: Index, pending: set<string>, u: string)
    requires CleanedExcept(idx, keep, r, pending) && u in pending
    ensures var kept := Filter(idx[u], keep);
      CleanedExcept(idx, keep, if kept == [] then r - {u} else r[u := kept], pending - {u})
  {
  }

  /** The imperative `for user_id in list(self.messages.keys())` loop of
      `_clean_old_messages`, one key at a time. */
  method CleanOldMessagesLoop(idx: Index, now: int, storageDays: int) returns (r: Index)
    ensures r == CleanOldMessages(idx, now, storageDays)
  {
    var keep := Unexpired(ExpireTime(now, storageDays));
    r := idx;
    var pending := idx.Keys;
    while pending != {}
      invariant CleanedExcept(idx, keep, r, pending)
      decreases pending
    {
      var u :| u in pending;
      CleanOneKey(idx, keep, r, pending, u);
      var kept := Filter(idx[u], keep);
      r := if kept == [] then r - {u} else r[u := kept];
      pending := pending - {u};
    }
    CleanedEverywhere(idx, now, storageDays, r);
  }

  /** An index that agrees with the pruned lists on every key of `idx`,
      has no other key and no empty list is the pruned index. */
  lemma CleanedEverywhere(idx: Index, now: int, storageDays: int, r: Index)
    requires r.Keys <= idx.Keys && NoEmptyLists(r)
    requires forall u :: u in idx ==> Lookup(r, u) == Filter(idx[u], Unexpired(ExpireTime(now, storageDays)))
    ensures r == CleanOldMessages(idx, now, storageDays)
  {
    var clean := CleanOldMessages(idx, now, storageDays);
    forall u ensures Lookup(r, u) == Lookup(clean, u) {
      if u !in idx {
        assert u !in r;
      }
    }
    LookupDetermines(r, clean);
  }

  /** `_record_for_users`: append under every recipient, then prune. */
  function RecordForUsers(idx: Index, atList: seq<string>, replyUserId: Option<string>,
                          rec: Record, now: int, storageDays: int): (r: Index)
    ensures NoEmptyLists(r)
    ensures forall u :: (Lookup(r, u)
      == Filter(Lookup(idx, u) + Repeat(rec, multiset(Recipients(atList, replyUserId))[u]),
                Unexpired(ExpireTime(now, storageDays))))
    ensures forall u :: (u !in atList && replyUserId != Some(u) ==>
      Lookup(r, u) == Filter(Lookup(idx, u), Unexpired(ExpireTime(now, storageDays))))
  {
    var users := Recipients(atList, replyUserId);
    var r := CleanOldMessages(AppendUnder(idx, users, rec), now, storageDays);
    forall u | u !in atList && replyUserId != Some(u)
      ensures Lookup(r, u) == Filter(Lookup(idx, u), Unexpired(ExpireTime(now, storageDays)))
    {
      assert u !in users;
      assert Lookup(idx, u) + Repeat(rec, multiset(users)[u]) == Lookup(idx, u);
    }
    r
  }

  /** What one `record_message` call leaves behind: the new index and
      whether it wrote the index back to storage. */
  datatype Step = Step(index: Index, saved: bool)

  /** `record_message` as one atomic step with a single clock reading. An
      empty message returns at once. Otherwise a quoted message first goes
      through `_record_for_users` with no recipients, then the event's own
      record is appended under its recipients, and the index is saved. */
  function RecordMessage(idx: Index, e: MessageEvent, now: int, storageDays: int): (t: Step)
    ensures e.segments == [] ==> t.index == idx && !t.saved
    ensures e.segments != [] ==> t.saved && NoEmptyLists(t.index)
    ensures e.segments != [] ==> forall u :: (Lookup(t.index, u)
      == Filter(Lookup(idx, u) + Repeat(BuildRecord(e, now), TimesNamed(e, u)), Unexpired(ExpireTime(now, storageDays))))
  {
    if e.segments == [] then Step(idx, false)
    else
      var rec := BuildRecord(e, now);
      var afterQuoted :=
        if e.reply.Some? then RecordForUsers(idx, [], None, QuotedRecord(e.reply.value, e.groupId, now), now, storageDays)
        else idx;
      var r := RecordForUsers(afterQuoted, rec.atList, rec.replyUserId, rec, now, storageDays);
      assert r == RecordForUsers(idx, rec.atList, rec.replyUserId, rec, now, storageDays) by {
        if e.reply.Some? {
          QuotedRecordIndexedNowhere(idx, e.reply.value, e.groupId, now, storageDays);
          RecordAfterPruneIsRecord(idx, rec.atList, rec.replyUserId, rec, now, storageDays);
        }
      }
      RecipientsOfEvent(e, now);
      Step(r, true)
  }

  /** The ids the event's record is appended under are exactly the ids the
      event names, with the same multiplicity. */
  lemma RecipientsOfEvent(e: MessageEvent, now: int)
    ensures forall u :: multiset(Recipients(BuildRecord(e, now).atList, BuildRecord(e, now).replyUserId))[u]
                        == TimesNamed(e, u)
  {
    var rec := BuildRecord(e, now);
    forall u
      ensures multiset(Recipients(rec.atList, rec.replyUserId))[u] == TimesNamed(e, u)
    {
      AtListMultiplicity(e.segments, u);
      assert (u != "" && rec.replyUserId == Some(u))
         <==> (u != "" && e.reply.Some? && e.reply.value.sender.userId == u);
    }
  }

  /** The quoted message's record is appended under nobody: that call
      only prunes the index. */
  lemma QuotedRecordIndexedNowhere(idx: Index, q: Reply, groupId: Option<string>, now: int, storageDays: int)
    ensures RecordForUsers(idx, [], None, QuotedRecord(q, groupId, now), now, storageDays)
         == CleanOldMessages(idx, now, storageDays)
  {
    var a := RecordForUsers(idx, [], None, QuotedRecord(q, groupId, now), now, storageDays);
    var b := CleanOldMessages(idx, now, storageDays);
    forall u ensures Lookup(a, u) == Lookup(b, u) {
      assert u !in [] && None != Some(u);
    }
    LookupDetermines(a, b);
  }

  /** Pruning twice with one clock reading is pruning once. */
  lemma CleanOldMessagesIdempotent(idx: Index, now: int, storageDays: int)
    ensures CleanOldMessages(CleanOldMessages(idx, now, storageDays), now, storageDays)
         == CleanOldMessages(idx, now, storageDays)
  {
    var once := CleanOldMessages(idx, now, storageDays);
    var twice := CleanOldMessages(once, now, storageDays);
    var keep := Unexpired(ExpireTime(now, storageDays));
    forall u ensures Lookup(twice, u) == Lookup(once, u) {
      FilterIdempotent(Lookup(idx, u), keep);
    }
    LookupDetermines(twice, once);
  }

  /** Surviving records keep their relative order: each pruned list is a
      subsequence of the list it came from. */
  lemma CleanOldMessagesKeepsOrder(idx: Index, now: int, storageDays: int, u: string)
    ensures SubsequenceOf(Lookup(CleanOldMessages(idx, now, storageDays), u), Lookup(idx, u))
  {
    FilterSubsequence(Lookup(idx, u), Unexpired(ExpireTime(now, storageDays)));
  }

  /** A record survives pruning exactly when it is unexpired. */
  lemma CleanOldMessagesMembership(idx: Index, now: int, storageDays: int, u: string, m: Record)
    ensures m in Lookup(CleanOldMessages(idx, now, storageDays), u)
        <==> m in Lookup(idx, u) && m.time > ExpireTime(now, storageDays)
  {
    FilterMembership(Lookup(idx, u), Unexpired(ExpireTime(now, storageDays)), m);
  }

  /** A prune before the append does not change the result of
      `_record_for_users`, since the append adds the same record to every
      list and the later prune removes whatever the earlier one would. */
  lemma RecordAfterPruneIsRecord(idx: Index, atList: seq<string>, replyUserId: Option<string>,
                                 rec: Record, now: int, storageDays: int)
    ensures RecordForUsers(CleanOldMessages(idx, now, storageDays), atList, replyUserId, rec, now, storageDays)
         == RecordForUsers(idx, atList, replyUserId, rec, now, storageDays)
  {
    var keep := Unexpired(ExpireTime(now, storageDays));
    var pruned := CleanOldMessages(idx, now, storageDays);
    var a := RecordForUsers(pruned, atList, replyUserId, rec, now, storageDays);
    var b := RecordForUsers(idx, atList, replyUserId, rec, now, storageDays);
    forall u ensures Lookup(a, u) == Lookup(b, u) {
      var l := Lookup(idx, u);
      var added := Repeat(rec, multiset(Recipients(atList, replyUserId))[u]);
      FilterConcat(Filter(l, keep), added, keep);
      FilterIdempotent(l, keep);
      FilterConcat(l, added, keep);
    }
    LookupDetermines(a, b);
  }

  /** `get_at_messages`: the user's records newest first (stable), cut to
      `maxMessages` with Python slice semantics; nothing for an unknown user. */
  function GetAtMessages(idx: Index, user: string, maxMessages: int): (r: seq<Record>)
    ensures user !in idx ==> r == []
    ensures 0 <= maxMessages ==>
      |r| == if maxMessages < |Lookup(idx, user)| then maxMessages else |Lookup(idx, user)|
    ensures Sorted(r)
    ensures multiset(r) <= multiset(Lookup(idx, user))
    ensures forall m :: m in r ==> m in Lookup(idx, user)
  {
    if user !in idx then []
    else
      var sorted := SortNewestFirst(idx[user]);
      var r := Take(sorted, maxMessages);
      SortedPrefix(sorted, r);
      assert sorted == r + sorted[|r|..];
      assert multiset(sorted) == multiset(r) + multiset(sorted[|r|..]);
      assert forall m :: m in r ==> m in Lookup(idx, user) by {
        forall m | m in r ensures m in Lookup(idx, user) {
          assert m in multiset(r);
          assert m in multiset(idx[user]);
        }
      }
      r
  }

  /** Records of equal time come back in insertion order: for every time,
      the returned records of that time are a prefix of the stored ones. */
  lemma GetAtMessagesStable(idx: Index, user: string, maxMessages: int, t: int)
    ensures Filter(GetAtMessages(idx, user, maxMessages), TimeIs(t)) <= Filter(Lookup(idx, user), TimeIs(t))
  {
    if user in idx {
      var sorted := SortNewestFirst(idx[user]);
      var r := Take(sorted, maxMessages);
      assert r == sorted[..|r|];
      FilterPrefix(sorted, |r|, TimeIs(t));
      SortStable(idx[user], t);
    }
  }

  /** The cap drops only the oldest records: no dropped record is newer
      than a returned one. */
  lemma GetAtMessagesKeepsNewest(idx: Index, user: string, maxMessages: int, kept: Record, dropped: Record)
    requires kept in GetAtMessages(idx, user, maxMessages)
    requires dropped in multiset(Lookup(idx, user)) - multiset(GetAtMessages(idx, user, maxMessages))
    ensures kept.time >= dropped.time
  {
    var sorted := SortNewestFirst(idx[user]);
    var r := Take(sorted, maxMessages);
    SortedSplit(sorted, |r|, kept, dropped);
  }

  /** Recording a message that names `u`, with a positive retention
      window, lists the new record under `u`; everything else under `u`
      was there before. */
  lemma RecordMessageIndexesRecipient(idx: Index, e: MessageEvent, now: int, storageDays: int, u: string)
    requires e.segments != [] && TimesNamed(e, u) >= 1
    requires 0 < storageDays
    ensures BuildRecord(e, now) in Lookup(RecordMessage(idx, e, now, storageDays).index, u)
    ensures forall m :: m in Lookup(RecordMessage(idx, e, now, storageDays).index, u) ==>
      m in Lookup(idx, u) || m == BuildRecord(e, now)
  {
    var rec := BuildRecord(e, now);
    var keep := Unexpired(ExpireTime(now, storageDays));
    assert keep(rec);
    FilterAppendedCopies(Lookup(idx, u), rec, TimesNamed(e, u), keep);
  }

  /** A record strictly newer than everything else under `u` heads `u`'s
      result whenever the cap lets anything through. */
  lemma GetAtMessagesNewestFirst(idx: Index, u: string, maxMessages: int, rec: Record)
    requires 1 <= maxMessages
    requires rec in Lookup(idx, u)
    requires forall m :: m in Lookup(idx, u) ==> m == rec || m.time < rec.time
    ensures GetAtMessages(idx, u, maxMessages) != []
    ensures GetAtMessages(idx, u, maxMessages)[0] == rec
  {
    var sorted := SortNewestFirst(idx[u]);
    assert rec in multiset(sorted);
    assert rec in sorted;
    SortedHeadNewest(sorted, rec);
    assert sorted[0] in multiset(idx[u]);
    assert sorted[0] in idx[u];
  }

  /** A non-empty message that mentions nobody and quotes nothing still
      prunes the index and saves it. */
  lemma UnaddressedMessageOnlyPrunes(idx: Index, e: MessageEvent, now: int, storageDays: int)
    requires e.segments != [] && e.reply.None?
    requires forall s :: s in e.segments ==> !s.At? || s.qq == ""
    ensures RecordMessage(idx, e, now, storageDays) == Step(CleanOldMessages(idx, now, storageDays), true)
  {
    var after := RecordMessage(idx, e, now, storageDays).index;
    var clean := CleanOldMessages(idx, now, storageDays);
    forall u ensures Lookup(after, u) == Lookup(clean, u) {
      assert TimesNamed(e, u) == 0 by {
        if u != "" {
          assert At(u) !in e.segments;
        }
      }
      assert Lookup(idx, u) + Repeat(BuildRecord(e, now), 0) == Lookup(idx, u);
    }
    LookupDetermines(after, clean);
  }

  /** The index the recorder keeps: no recipient with an empty list and no
      empty recipient id. */
  ghost predicate Valid(idx: Index) {
    NoEmptyLists(idx) && "" !in idx
  }

  /** Every `record_message` step keeps the index valid. */
  lemma RecordMessagePreservesValid(idx: Index, e: MessageEvent, now: int, storageDays: int)
    requires Valid(idx)
    ensures Valid(RecordMessage(idx, e, now, storageDays).index)
  {
    var after := RecordMessage(idx, e, now, storageDays).index;
    if e.segments != [] {
      assert Lookup(idx, "") == [];
      assert Lookup(after, "") == Filter(Lookup(idx, "") + Repeat(BuildRecord(e, now), 0),
                                        Unexpired(ExpireTime(now, storageDays)));
      assert Lookup(after, "") == [];
    }
  }
}
