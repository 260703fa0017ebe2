# Who asked me: a Dafny model of the mention index

This project models the core of `nonebot-plugin-whoasked`, a chat-bot
plugin. The plugin records every inbound message and indexes each one
under the users it mentions (`@`) or replies to. A user can then send the
command `谁问我了` ("who asked me") in a group and get back the messages
that named them there, newest first, as a forwarded message.

The model is functional. The recipient index is a
`map<string, seq<Record>>`, and every operation is a pure function from
the old index to the new one. Each `record_message` call is a single
atomic step, as the recorder's lock makes it. The clock reading, the
retention window (`who_at_me_storage_days`) and the result cap
(`who_at_me_max_messages`) are parameters.

Modules, in dependency order:

- `Seqs`: order-preserving filtering (a Python list comprehension) and
  runs of one repeated element.
- `Records`: the stored record, the index and `Lookup`.
- `Extraction`: the parsing half of `record_message`. Segments become the
  mention list, reply metadata becomes the reply fields, and the event
  becomes a record. It also builds the record for the quoted message.
- `NewestFirst`: Python's stable `sorted(..., key=time, reverse=True)`
  and the `[:n]` slice.
- `MessageRecorder`: `_record_for_users`, `_clean_old_messages` (as a
  function and as the key-by-key loop), `record_message` and
  `get_at_messages`.
- `WhoAsked`: `handle_who_at_me`'s uninitialized guard and
  `process_query`. The query keeps the capped records addressed to the
  querier in the current group and shapes them into forward nodes.
- `Scenarios`: end-to-end examples stated over all inputs of their shape.

### Behaviours of the code worth knowing

- A quoted message's record is passed to `_record_for_users` with no
  mentions and no reply id (`data_manager.py:90`), so it is appended
  under nobody. That call only prunes the index, and the quoted message
  never becomes queryable. The comment just above that record says it
  should also be recorded (`data_manager.py:79`), and the plugin's
  description promises to report who quoted your messages
  (`__init__.py:23`). The record is also stamped with the current time
  (`data_manager.py:81`). The model keeps this behaviour; see
  `MessageRecorder.QuotedRecordIndexedNowhere` and
  `Scenarios.ReplyScenario`.
- Every message with at least one segment prunes the index and marks it
  saved, even when it names nobody
  (`MessageRecorder.UnaddressedMessageOnlyPrunes`).
- An empty message returns before anything else, even when it carries a
  reply.
- `get_at_messages` applies the cap before `process_query` filters by
  group. So at most `maxMessages` records are reported, and a query can
  answer "nobody asked here" while older records from this group exist
  (`WhoAsked.RelevantCapped`, `Scenarios.CapBeforeFilterScenario`).

## Model

| member | source | states |
|---|---|---|
| Extraction.AtList | nonebot_plugin_whoasked/data_manager.py:66-71 | the mention list has at most one entry per segment, and no entry is the empty id |
| Extraction.AtListMembership | nonebot_plugin_whoasked/data_manager.py:66-71 | an id is in the mention list exactly when it is non-empty and some `at` segment names it |
| Extraction.AtListMultiplicity | nonebot_plugin_whoasked/data_manager.py:66-71 | a non-empty id appears in the mention list once per `at` segment naming it, so duplicate mentions are kept |
| Extraction.AtListConcat | nonebot_plugin_whoasked/data_manager.py:67-71 | extraction works segment by segment, so the mention list keeps segment order |
| Extraction.DisplayName | nonebot_plugin_whoasked/data_manager.py:87 | the name is the card when the card is non-empty, and otherwise the nickname |
| Extraction.SenderName | nonebot_plugin_whoasked/data_manager.py:101 | a private message stores the nickname; a group message stores the card when it is non-empty and the nickname otherwise |
| Extraction.BuildRecord | nonebot_plugin_whoasked/data_manager.py:93-102 | the event's record carries the sender, the text, the group and the sender name chosen for the message kind; its mention list is the extracted one, in segment order with duplicates; it is a reply exactly when the event quotes a message, and then names the quoted sender |
| Extraction.QuotedRecord | nonebot_plugin_whoasked/data_manager.py:80-89 | the quoted message's record carries the quoted sender, text and display name (card, else nickname), the current time, no mentions and no reply of its own |
| NewestFirst.Insert | nonebot_plugin_whoasked/data_manager.py:132 | insertion into a newest-first list keeps it newest-first and adds exactly one element |
| NewestFirst.SortNewestFirst | nonebot_plugin_whoasked/data_manager.py:132 | the sorted list is newest-first and a permutation of the input |
| NewestFirst.SortStable | nonebot_plugin_whoasked/data_manager.py:132 | the sort is stable: for every time, the records of that time keep their input order |
| NewestFirst.Take | nonebot_plugin_whoasked/data_manager.py:132 | `[:n]` is a prefix of length `min(n, len)` for `n >= 0`, and drops `-n` elements from the end for negative `n` |
| MessageRecorder.Recipients | nonebot_plugin_whoasked/data_manager.py:110-116 | a record goes under each mention once per occurrence, plus once under a non-empty reply id, and under nobody else |
| MessageRecorder.AppendUnder | nonebot_plugin_whoasked/data_manager.py:111-115 | `setdefault(...).append` adds exactly the new ids as keys, and extends each list by as many copies of the record as that id occurs |
| MessageRecorder.ExpireTime | nonebot_plugin_whoasked/data_manager.py:120 | the expiry instant lies before `now` exactly when the window is positive, so with a zero or negative window even a record stamped `now` is pruned |
| MessageRecorder.UnexpiredWithinWindow | nonebot_plugin_whoasked/data_manager.py:120-122 | a record survives pruning exactly when it is less than `storageDays` days old |
| MessageRecorder.CleanOldMessages | nonebot_plugin_whoasked/data_manager.py:119-124 | each list keeps exactly its records newer than `now - days*86400`, in order; emptied recipients are removed and no key is added |
| MessageRecorder.CleanOldMessagesLoop | nonebot_plugin_whoasked/data_manager.py:121-124 | pruning key by key over a snapshot of the keys yields the same index as pruning all lists at once |
| MessageRecorder.CleanOldMessagesIdempotent | nonebot_plugin_whoasked/data_manager.py:119-124 | pruning twice with one clock reading is pruning once |
| MessageRecorder.CleanOldMessagesKeepsOrder | nonebot_plugin_whoasked/data_manager.py:122 | each pruned list is a subsequence of the list it came from |
| MessageRecorder.CleanOldMessagesMembership | nonebot_plugin_whoasked/data_manager.py:122 | a record survives pruning exactly when it was listed and is newer than the expiry instant |
| MessageRecorder.RecordForUsers | nonebot_plugin_whoasked/data_manager.py:110-117 | after appending and pruning, each recipient's list is its old list plus one copy of the record per time it is named, then pruned; unnamed users only lose expired records; no empty list remains |
| MessageRecorder.RecordAfterPruneIsRecord | nonebot_plugin_whoasked/data_manager.py:110-117 | an extra prune before `_record_for_users` does not change its result |
| MessageRecorder.QuotedRecordIndexedNowhere | nonebot_plugin_whoasked/data_manager.py:90 | the call for the quoted message appends it under nobody and only prunes the index |
| MessageRecorder.RecipientsOfEvent | nonebot_plugin_whoasked/data_manager.py:104 | an event's record is appended under each id as many times as the event names it: its `at` segments, plus one if it quotes that user |
| MessageRecorder.RecordMessage | nonebot_plugin_whoasked/data_manager.py:51-105 | an empty message leaves the index unchanged and unsaved; otherwise each user's new list is their old list plus one copy of the event's record per time it names them, then pruned; the index is saved and has no empty list |
| MessageRecorder.UnaddressedMessageOnlyPrunes | nonebot_plugin_whoasked/data_manager.py:104-105 | a non-empty message that names nobody still prunes the index and saves it |
| MessageRecorder.RecordMessagePreservesValid | nonebot_plugin_whoasked/data_manager.py:110-124 | every recording step keeps the index free of empty lists and of the empty id |
| MessageRecorder.RecordMessageIndexesRecipient | nonebot_plugin_whoasked/data_manager.py:104 | with a positive window, a message naming `u` is listed under `u` afterwards, and nothing else new is |
| MessageRecorder.GetAtMessages | nonebot_plugin_whoasked/data_manager.py:126-132 | an unknown user gets nothing; otherwise the result is newest-first, has `min(max, count)` records for a non-negative cap, and is a sub-multiset of the user's list |
| MessageRecorder.GetAtMessagesStable | nonebot_plugin_whoasked/data_manager.py:132 | for every time, the returned records of that time are a prefix of the stored records of that time, in insertion order |
| MessageRecorder.GetAtMessagesKeepsNewest | nonebot_plugin_whoasked/data_manager.py:132 | no record dropped by the cap is newer than a returned record |
| MessageRecorder.GetAtMessagesNewestFirst | nonebot_plugin_whoasked/data_manager.py:132 | a record strictly newer than all others under the user comes first whenever the cap is at least one |
| WhoAsked.Addressed | nonebot_plugin_whoasked/__init__.py:121-123 | a record is selected only if it is from the group; a record from the group is selected when it mentions the user or is a reply to them; a selected record that does not mention the user is a reply to them |
| WhoAsked.NodeContent | nonebot_plugin_whoasked/__init__.py:148 | a record's node text reads back as its reply flag and its raw message |
| WhoAsked.RecordNode | nonebot_plugin_whoasked/__init__.py:143-150 | a record's node shows the record's sender name and id, and a text that reads back as its reply flag and raw message |
| WhoAsked.QuerierNode | nonebot_plugin_whoasked/__init__.py:133-140 | the querier's node shows their card, else their nickname, their id and the command message itself |
| WhoAsked.ParseContent | nonebot_plugin_whoasked/__init__.py:148 | a parsed node text, relabelled, gives the text back |
| WhoAsked.ContentRoundTrip | nonebot_plugin_whoasked/__init__.py:148 | a node's label tells a reply from a mention, and the raw message follows it unchanged |
| WhoAsked.Relevant | nonebot_plugin_whoasked/__init__.py:119-127 | every reported record comes from the capped list, is from the current group, and mentions the querier or replies to them; a record addressed here is reported as many times as the capped list holds it, and any other record never |
| WhoAsked.RelevantComplete | nonebot_plugin_whoasked/__init__.py:119-124 | every record of the capped list addressed to the querier in this group is reported, as many times as the list holds it |
| WhoAsked.RelevantKeepsOrder | nonebot_plugin_whoasked/__init__.py:119-127 | the reported records are a subsequence of the capped list, so they are newest-first |
| WhoAsked.RelevantCapped | nonebot_plugin_whoasked/__init__.py:112-127 | with a non-negative cap, at most `maxMessages` records are reported, whatever the group |
| WhoAsked.PrivateNeverReported | nonebot_plugin_whoasked/__init__.py:121 | a record from a private message is never reported |
| WhoAsked.ForwardNodes | nonebot_plugin_whoasked/__init__.py:133-150 | the forward opens with the querier's node, then has one node per record in order, with the record's sender name and id and a labelled text that reads back as the record's reply flag and raw message |
| WhoAsked.ProcessQuery | nonebot_plugin_whoasked/__init__.py:103-150 | "nobody asked" exactly when the capped list is empty; "nobody asked here" exactly when it is non-empty but nothing in it is addressed here; otherwise the forward of the addressed records |
| WhoAsked.HandleWhoAtMe | nonebot_plugin_whoasked/__init__.py:93-100 | the command answers "not initialized" exactly when there is no recorder, and otherwise runs the query |
| WhoAsked.RelevantHead | nonebot_plugin_whoasked/__init__.py:143-150 | when the capped list opens with a record addressed here, the forward's first record node is that record's |
| WhoAsked.NamedRecipientIsReported | nonebot_plugin_whoasked/__init__.py:112-150 | after a group message names the querier, and no older record of theirs is as new, their next query there opens with that message |
| Scenarios.MentionScenario | nonebot_plugin_whoasked/__init__.py:112-150 | "hello @u" in group g, on an empty index, makes u's query in g forward that message from its author |
| Scenarios.MentionElsewhereScenario | nonebot_plugin_whoasked/__init__.py:119-130 | the same message makes u's query in another group answer "nobody asked here" |
| Scenarios.ReplyScenario | nonebot_plugin_whoasked/data_manager.py:74-104 | a reply to u's message, on an empty index, gives u exactly one reported record: the reply, labelled as one; the quoted original is not reported |
| Scenarios.RetentionScenario | nonebot_plugin_whoasked/data_manager.py:119-124 | with a one-day window, a record 90000 seconds old is gone after the next write, and so is its recipient |
| Scenarios.CapBeforeFilterScenario | nonebot_plugin_whoasked/__init__.py:112-130 | with a cap of one, a newer mention from another group hides an older one from this group; a cap of two reports it |

## Left out

- Loading and saving the JSON file, the data directory and the executor that saves off the event loop. A save is modelled only as the `saved` flag of `MessageRecorder.Step`.
- The `asyncio.Lock`. Each `record_message` call is one atomic step, so interleavings with concurrent queries are not modelled.
- `time.time()`. One clock reading `now` is used per `record_message`; the source reads the clock up to four times, and the readings could differ across a second boundary.
- Configuration lookups. The retention window and the cap are parameters.
- Sending the forward with `bot.call_api`, the `finish` replies as text, logging, timing, and the `try`/`except` blocks that log and swallow errors, including `catch_exception`.
- Plugin metadata, startup and the recorder's construction. `WhoAsked.HandleWhoAtMe` takes the recorder as an optional index.
- `str(message)` and `str(reply.message)`: the serialized text arrives as a field of the event.
- A missing card and an empty card are one case (the empty string), since `card or nickname` treats both alike. A missing nickname is not modelled.
- `Extraction.AtList`: ids are taken as strings, so `str(...)` of a non-string `qq` value is not modelled.
- The two "nobody asked" replies and the "not initialized" reply are outcomes of the model, not their message texts.
