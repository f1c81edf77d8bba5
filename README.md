# Event planner data layer in Dafny

This project models the core of a small event-planning and voting
application. It stores three kinds of record in one key-value table:

- an **event**;
- the **questions** asked in an event;
- the **options** offered for each question, each with a vote count.

Every record lives under a composite key `(pk, sk)`:

- `pk` is `<TYPE>#<id>`.
- `sk` is the record's own key for an event, and its parent's key for a
  question or an option.

Three secondary indexes answer the queries the key cannot:

- by entity type (optionally together with `pk`);
- questions by event id;
- options by question id.

The model has five modules:

- `Wrappers`: the `Maybe` and `Outcome` result types.
- `Models` (models/event.go): the entity-type constants, the key scheme and
  its inverse `SplitKey`, the three constructors, and the winner rule of a
  question. The winner rule is given as a specification function `Winners`
  and as the source's two-loop method `WinningOptions`, which is proved
  equal to it.
- `Codec`: the stored form of each record. Nested collections are never
  stored. Decoding is by attribute name, so a missing attribute decodes as
  `""` or `0`.
- `Store`: the table as a map from `(pk, sk)` to item, and the indexes as
  exact filters over that map. It defines what a query result, a lookup and
  a fan-out are, together with "well-formed" tables (every item keyed as its
  constructor keys it, one entry per `pk`). Its lemmas state what writes,
  updates, votes and cascading deletes do to a table.
- `Operations` (databases/operations.go): the data-access layer as a class
  `Table` whose field `items` is the table. It has one method per operation
  of the source.

  Each method's `ensures` gives the new table, or the result, in terms of
  the functions of `Store`. Where the source only behaves as intended on a
  well-formed table, the stronger promise is conditioned on
  `WellFormed(old(items))`. Examples: a cascade deletes exactly the
  subtree, and updates keep the table well-formed.

A query returns its matches in an order the store chooses. `Store.Scan`
models this with a nondeterministic choice. Results are therefore specified
as listings: every match exactly once, in some order.

Three behaviours of the code are easy to misread:

- Decoding an item this code wrote never fails: absent attributes decode
  as `""` or `0`. The unmarshal-error returns at
  databases/operations.go:62-65, 151-154, 217-220, 350-353, 414-417 and
  521-524 fire only on items of another shape, such as an attribute of the
  wrong type written by another client, and are not modelled.
- `DeleteEvent` of an event whose own entry does not exist still succeeds,
  unlike the other deletes, which fail with "not found". It cascades through
  the event-id index whatever the event entry holds. So it deletes the
  questions stored under that id, and their options, even when they have
  no event entry.
- `AddQuestion` and `AddOption` ignore the parent id they are given when the
  record already carries both keys.

## Model

| member | source | states |
|---|---|---|
| Models.SplitKey | models/event.go:30-31 | splitting a key at its first '#' fails exactly when there is no '#', and otherwise gives a '#'-free type and an id that rebuild the key |
| Models.SplitMakeKey | models/event.go:5-9 | a key built as `TYPE#id` splits back into that type and that id |
| Models.KeyInjective | models/event.go:30-31 | two keys are equal if and only if their entity types and ids are equal |
| Models.KeysOfDistinctTypesDiffer | models/event.go:5-9 | keys of EVENT, QUESTION and OPTION never collide, whatever the ids |
| Models.NewEvent | models/event.go:26-37 | pk and sk are both `EVENT#id`, the fields are the arguments, there are no questions, and the type is EVENT |
| Models.NewQuestion | models/event.go:49-61 | pk is `QUESTION#id`, sk is `EVENT#eventId`, the fields are the arguments, there are no options, and the type is QUESTION |
| Models.NewOption | models/event.go:105-118 | pk is `OPTION#id`, sk is `QUESTION#questionId`, votes start at 0, and the type is OPTION |
| Models.MaxVotes | models/event.go:68-78 | the result is the vote count of some option, and no option has more |
| Models.TopScorersMembers | models/event.go:84-90 | the collected options are exactly the options whose count equals the maximum |
| Models.TopScorersPreservesOrder | models/event.go:84-90 | the collected options keep the order they have among the question's options |
| Models.TopScorersMultiplicity | models/event.go:84-90 | an option with the maximum count is returned as often as it occurs, and no other option is returned |
| Models.WinnersCharacterization | models/event.go:63-93 | there are no winners if and only if there are no options or no option has a positive vote; every winner has at least as many votes as any option; every positive option at the top is a winner; winners are a sub-sequence and a sub-multiset of the options |
| Models.WinnersExamples | models/event.go:63-93 | all-zero votes give no winner, no options give no winner, and a tie at the top returns every tied option in order |
| Models.WinningOptions | models/event.go:63-93 | the two-pass loop returns exactly the winners of the specification |
| Codec.EncodeEvent | databases/operations.go:24 | the attributes marshalled for an event: every scalar field, never the nested questions (its contract is Codec.RoundTrips) |
| Codec.EncodeQuestion | databases/operations.go:179 | the attributes marshalled for a question: every scalar field, never the nested options (its contract is Codec.RoundTrips) |
| Codec.EncodeOption | databases/operations.go:376 | the attributes marshalled for an option, the vote count included (its contract is Codec.RoundTrips) |
| Codec.DecodeEvent | databases/operations.go:61-65 | decoding keeps the keys, the id and the type, gives no questions, and inverts encoding on an event item |
| Codec.DecodeQuestion | databases/operations.go:216-220 | decoding keeps the keys, the id and the type, gives no options, and inverts encoding on a question item |
| Codec.DecodeOption | databases/operations.go:413-417 | decoding keeps the keys, the id and the type, and inverts encoding on an option item |
| Codec.RoundTrips | databases/operations.go:24-27 | every stored attribute survives a write and a read; only the nested questions and options are lost |
| Store.TypeIndex | databases/operations.go:136-143 | the index lists only stored entries (its contract); which entries, those of that type, is its definition |
| Store.TypeIndexWithPk | databases/operations.go:199-207 | the index lists only stored entries (its contract); which entries, those of that type and pk, is its definition |
| Store.EventIdIndex | databases/operations.go:329-338 | the index lists only stored entries (its contract); which entries, question items carrying that event id, is its definition |
| Store.QuestionIdIndex | databases/operations.go:506-515 | the index lists only stored entries (its contract); which entries, option items carrying that question id, is its definition |
| Store.Scan | databases/operations.go:136-148 | a query lists every matching key exactly once, in some order |
| Store.MatchIsUnique | databases/operations.go:198-224 | in a well-formed table, a lookup by type and `TYPE#id` finds at most one entry, which is the entity `id` itself |
| Store.CreatedEventReadsBack | databases/operations.go:18-38 | an event created without keys is found by its exact key, decodes to the constructed event, and is listed by the type index |
| Store.AddedQuestionReadsBack | databases/operations.go:173-193 | a question added without keys, whose id is free, is the only match of its id, decodes to the constructed question, and is listed under its event |
| Store.AddedOptionReadsBack | databases/operations.go:370-390 | an option added without keys, whose id is free, is the only match of its id, decodes to the constructed option with 0 votes, and is listed under its question |
| Store.WithEventKeys | databases/operations.go:20-22 | the event written always has both keys, and an event that already has them is written unchanged |
| Store.WithQuestionKeys | databases/operations.go:175-177 | the question written always has both keys, and a question that already has them is written unchanged |
| Store.WithOptionKeys | databases/operations.go:372-374 | the option written always has both keys, and an option that already has them is written unchanged |
| Store.RebuildQuestion | databases/operations.go:263-265 | the keyless update's record: the constructor under the stored question's event, with the stored options (its contract is Store.RebuiltQuestionChangesOnlyText) |
| Store.RebuildOption | databases/operations.go:434-436 | the keyless update's record: the constructor under the stored option's question, with the stored votes (its contract is Store.RebuiltOptionChangesOnlyText) |
| Store.RebuiltQuestionChangesOnlyText | databases/operations.go:254-266 | in a well-formed table, updating a question without keys replaces its text and nothing else, and the table stays well-formed |
| Store.RebuiltOptionChangesOnlyText | databases/operations.go:425-437 | in a well-formed table, updating an option without keys replaces its text and keeps its votes, and the table stays well-formed |
| Store.Voted | databases/operations.go:496-500 | the item written back by a vote has the same key and one more vote than the stored option decodes to |
| Store.VoteKeepsWellFormed | databases/operations.go:486-501 | in a well-formed table, a vote adds one to that option's count, changes nothing else, and keeps the table well-formed |
| Store.EventCascadeLeavesNoDescendants | databases/operations.go:101-131 | after an event's cascade the table is well-formed, the event is gone, no question is indexed under it, no former question or option can be found, and every other entry is untouched |
| Store.QuestionCascadeLeavesNoDescendants | databases/operations.go:285-324 | after a question's cascade the table is well-formed, the question cannot be found, and it has no options left |
| Operations.Table.PutItem | databases/operations.go:29-32 | a put inserts the item at its key, or overwrites whatever is stored there; nothing else changes |
| Operations.Table.DeleteItem | databases/operations.go:119-125 | a delete removes the entry at the key, if any; nothing else changes |
| Operations.Table.CreateEvent | databases/operations.go:18-38 | the table is the old one with the event, keyed by its constructor when a key is missing, put at its key; a keyless create keeps a well-formed table well-formed |
| Operations.Table.GetEvent | databases/operations.go:41-75 | none exactly when no entry has the event's key, otherwise the stored event with every question under it, each with all of its options |
| Operations.Table.UpdateEvent | databases/operations.go:78-98 | the same whole-item overwrite as create, with no merge |
| Operations.Table.DeleteEvent | databases/operations.go:101-131 | the table only loses entries; on success the event is gone; on a well-formed table the result is success and exactly the event, its questions and their options are removed |
| Operations.Table.ListEvents | databases/operations.go:134-168 | every stored event is listed once, each with its two-level fan-out |
| Operations.Table.AddQuestion | databases/operations.go:173-193 | the table is the old one with the question, keyed under the given event when a key is missing, put at its key; this keeps a well-formed table well-formed when the id is free |
| Operations.Table.GetQuestion | databases/operations.go:196-230 | none exactly when nothing matches `QUESTION#id`, otherwise a matching question with all of its options |
| Operations.Table.GetQuestionWithEvent | databases/operations.go:233-249 | the question lookup; no event when there is no question; otherwise the lookup of the question's event |
| Operations.Table.UpdateQuestion | databases/operations.go:252-282 | with both keys set, an overwrite; without them, "not found" and an unchanged table when no question matches, otherwise the stored question rebuilt with the new text; on a well-formed table only the text changes |
| Operations.Table.DeleteQuestion | databases/operations.go:285-324 | the table only loses entries; "not found" and no change when no question matches; success removes the entry at `QUESTION#id` under the stored question's event; a failure after the lookup comes from an option delete and leaves the question's entries in place; on a well-formed table with a match, success, with exactly the question and its options removed |
| Operations.Table.GetQuestionsByEventID | databases/operations.go:327-365 | every question indexed under the event is listed once, each with all of its options |
| Operations.Table.AddOption | databases/operations.go:370-390 | the table is the old one with the option, keyed under the given question when a key is missing, put at its key; this keeps a well-formed table well-formed when the id is free |
| Operations.Table.GetOption | databases/operations.go:393-420 | none exactly when nothing matches `OPTION#id`, otherwise a matching option |
| Operations.Table.UpdateOption | databases/operations.go:423-453 | with both keys set, an overwrite; without them, "not found" and an unchanged table when no option matches, otherwise the stored option rebuilt with the new text and its old votes; on a well-formed table only the text changes |
| Operations.Table.DeleteOption | databases/operations.go:456-483 | "not found" and no change when no option matches; otherwise success, with the entry at the option's key under its stored question removed; on a well-formed table exactly the option's entry goes and the table stays well-formed |
| Operations.Table.VoteOption | databases/operations.go:486-501 | "not found" and no change when no option matches; otherwise success, with that option's entry getting one more vote; a well-formed table stays well-formed |
| Operations.Table.GetOptionsByQuestionID | databases/operations.go:504-527 | every option indexed under the question is listed once |

## Left out

- Store and transport failures are not modelled. `PutItem`, `DeleteItem`,
  queries, marshalling and unmarshalling always succeed here. So `CreateEvent`,
  `UpdateEvent`, `AddQuestion` and `AddOption` never fail, and neither do
  the reads. `UpdateQuestion` and `UpdateOption` fail only with "not
  found", and the deletes only with "not found" or a failed child delete.
  The listings never hit the fan-out error path, where the source leaves a
  record with an empty nested list.
- Store.Scan: every query returns all of its matches. The source issues a
  single query and never follows a continuation key, so a result larger
  than one page is cut short. The model does not capture the records that
  Operations.Table.ListEvents, Operations.Table.GetQuestionsByEventID and
  Operations.Table.GetOptionsByQuestionID would then miss. Nor does it
  capture the children that the cascades of Operations.Table.DeleteEvent
  and Operations.Table.DeleteQuestion would leave behind.
- The secondary indexes are exact filters of the table. Their eventual
  consistency (an index lagging a recent write) is not modelled.
- Concurrency is not modelled. In particular, the lost update of two
  simultaneous votes (read, increment, write back) is outside a sequential
  model.
- Operations.Table.VoteOption: vote counts are unbounded integers, so the
  wrap-around of Go's 64-bit `int` on overflow is not modelled.
- The order a query returns is left nondeterministic. The model does not
  say which duplicate a lookup picks in a table that is not well-formed; it
  only says the pick is a match.
- Operations.Table.DeleteEvent: the promise of success and of an exact
  subtree removal is stated for well-formed tables only. On other tables
  the model states only that entries are lost, not added, and that success
  removes the event.
- databases/db.go (client set-up, table name, region), handlers/, routes/,
  main.go, utils/ and go/helloworld are not part of this model. The table
  name and the request context passed to every store call are irrelevant to
  the table's contents.
