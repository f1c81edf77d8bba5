/**
 * The data-access layer: create, read, update, delete and list operations
 * for events, questions and options over the one shared table, with the
 * fan-out reads and the leaf-first cascading deletes.
 */
module Operations {
  import opened Wrappers
  import opened Models
  import opened Codec
  import opened Store

  /** The errors the layer reports itself; store transport, marshalling and unmarshalling failures are not modelled. */
  datatype Error =
    | NotFound(entity: string, id: string)
    | ChildDeleteFailed(entity: string, id: string, cause: Error)

  /** The table, as the map from (pk, sk) to the stored item. */
  class Table {
    var items: map<Key, Item>

    ghost predicate Valid()
      reads this
    {
      Consistent(items)
    }

    constructor ()
      ensures Valid() && items == map[]
    {
      items := map[];
    }

    // -------------------------------------------------------------------------
    // Store primitives

    /** PutItem: insert, or overwrite whatever is stored at the same key. */
    method PutItem(it: Item)
      requires Valid() && it.pk != "" && it.sk != ""
      modifies this
      ensures Valid() && items == Put(old(items), it)
    {
      items := items[KeyOf(it) := it];
    }

    /** DeleteItem: remove the entry at `k`; deleting a missing key succeeds. */
    method DeleteItem(k: Key)
      requires Valid()
      modifies this
      ensures Valid() && items == old(items) - {k}
    {
      items := items - {k};
    }

    // -------------------------------------------------------------------------
    // Events

    method CreateEvent(event: Event)
      requires Valid()
      modifies this
      ensures Valid()
      ensures items == Put(old(items), EncodeEvent(WithEventKeys(event)))
      ensures (event.pk == "" || event.sk == "") && WellFormed(old(items)) ==> WellFormed(items)
    {
      var e := event;
      if e.pk == "" || e.sk == "" {
        e := NewEvent(e.id, e.name);
        if WellFormed(items) {
          NewEventKeyIsFree(items, event.id, event.name);
        }
      }
      PutItem(EncodeEvent(e));
    }

    method GetEvent(eventId: string) returns (r: Maybe<Event>)
      requires Valid()
      ensures IsEventLookup(items, eventId, r)
    {
      var k := EventKey(eventId);
      if k !in items {
        return None;
      }
      var event := DecodeEvent(items[k]);
      var questions, _ := GetQuestionsByEventID(eventId);
      event := event.(questions := questions);
      return Some(event);
    }

    /** Full replacement, by the same write path as CreateEvent. */
    method UpdateEvent(event: Event)
      requires Valid()
      modifies this
      ensures Valid()
      ensures items == Put(old(items), EncodeEvent(WithEventKeys(event)))
      ensures (event.pk == "" || event.sk == "") && WellFormed(old(items)) ==> WellFormed(items)
    {
      var e := event;
      if e.pk == "" || e.sk == "" {
        e := NewEvent(e.id, e.name);
        if WellFormed(items) {
          NewEventKeyIsFree(items, event.id, event.name);
        }
      }
      PutItem(EncodeEvent(e));
    }

    /** Deletes every question of the event (each with its options), then the event's own entry. */
    method DeleteEvent(eventId: string) returns (r: Outcome<Error>)
      requires Valid()
      modifies this
      ensures Valid()
      ensures Submap(items, old(items))
      ensures r == Pass ==> EventKey(eventId) !in items
      ensures WellFormed(old(items)) ==>
        && r == Pass
        && items == old(items) - EventSubtree(old(items), eventId)
        && WellFormed(items)
    {
      var questions, found := GetQuestionsByEventID(eventId);
      ghost var ids := QuestionIds(questions);
      NoSubtreeYet(items, ids);
      for i := 0 to |questions|
        invariant Valid()
        invariant Submap(items, old(items))
        invariant WellFormed(old(items)) ==> items == old(items) - SubtreesOf(old(items), ids[..i])
      {
        if WellFormed(old(items)) {
          NextListedQuestion(old(items), eventId, found, ids, i);
          assert ids[i] == questions[i].id;
        }
        ghost var before := items;
        var res := DeleteQuestion(questions[i].id);
        SubmapTransitive(items, before, old(items));
        if res.Fail? {
          return Fail(ChildDeleteFailed(QuestionEntity, questions[i].id, res.error));
        }
      }
      DeleteItem(EventKey(eventId));
      if WellFormed(old(items)) {
        assert ids[..|questions|] == ids;
        ListedQuestionsCoverEvent(old(items), eventId, found, ids);
      }
      return Pass;
    }

    /** Every event, each with its questions and their options filled in. */
    method ListEvents() returns (events: seq<Event>)
      requires Valid()
      ensures ListsEvents(items, events)
    {
      var m := items;
      var keys := Scan(TypeIndex(m, EventEntity));
      events := seq(|keys|, i requires 0 <= i < |keys| && keys[i] in m => DecodeEvent(m[keys[i]]));
      for i := 0 to |events|
        invariant |events| == |keys|
        invariant forall j | 0 <= j < |keys| :: EventShell(events[j]) == DecodeEvent(m[keys[j]])
        invariant forall j | 0 <= j < i :: ListsQuestions(m, events[j].id, events[j].questions)
      {
        var questions, _ := GetQuestionsByEventID(events[i].id);
        events := events[i := events[i].(questions := questions)];
      }
      DecodedListing(m, TypeIndex(m, EventEntity), keys, DecodeEvent, EventShells(events));
    }

    // -------------------------------------------------------------------------
    // Questions

    method AddQuestion(eventId: string, question: Question)
      requires Valid()
      modifies this
      ensures Valid()
      ensures items == Put(old(items), EncodeQuestion(WithQuestionKeys(question, eventId)))
      ensures (question.pk == "" || question.sk == "") && WellFormed(old(items))
        && PkFreeExcept(old(items), MakeKey(QuestionEntity, question.id), MakeKey(EventEntity, eventId))
        ==> WellFormed(items)
    {
      var q := question;
      if q.pk == "" || q.sk == "" {
        q := NewQuestion(q.id, eventId, q.text);
        if WellFormed(items) && PkFreeExcept(items, q.pk, q.sk) {
          PutCanonicalKeepsWellFormed(items, EncodeQuestion(q));
        }
      }
      PutItem(EncodeQuestion(q));
    }

    /** Finds the question by type and pk (its sort key is unknown), taking the first match, and fills its options. */
    method GetQuestion(questionId: string) returns (r: Maybe<Question>)
      requires Valid()
      ensures IsQuestionLookup(items, questionId, r)
    {
      var keys := Scan(QuestionMatches(items, questionId));
      if |keys| == 0 {
        return None;
      }
      assert keys[0] in QuestionMatches(items, questionId);
      var question := DecodeQuestion(items[keys[0]]);
      var options, _ := GetOptionsByQuestionID(questionId);
      question := question.(options := options);
      return Some(question);
    }

    /** The question and the event it names; no event is looked up for a missing question. */
    method GetQuestionWithEvent(questionId: string) returns (question: Maybe<Question>, event: Maybe<Event>)
      requires Valid()
      ensures IsQuestionLookup(items, questionId, question)
      ensures question.None? ==> event.None?
      ensures question.Some? ==> IsEventLookup(items, question.value.eventId, event)
    {
      question := GetQuestion(questionId);
      if question.None? {
        return None, None;
      }
      event := GetEvent(question.value.eventId);
    }

    /** A question without keys is rebuilt from the stored one: its event and options are kept, its text replaced. */
    method UpdateQuestion(question: Question) returns (r: Outcome<Error>)
      requires Valid()
      modifies this
      ensures Valid()
      ensures question.pk != "" && question.sk != "" ==>
        r == Pass && items == Put(old(items), EncodeQuestion(question))
      ensures (question.pk == "" || question.sk == "") && QuestionMatches(old(items), question.id) == {} ==>
        r == Fail(NotFound(QuestionEntity, question.id)) && items == old(items)
      ensures (question.pk == "" || question.sk == "") && QuestionMatches(old(items), question.id) != {} ==>
        && r == Pass
        && exists k | k in QuestionMatches(old(items), question.id) ::
             items == Put(old(items), EncodeQuestion(RebuildQuestion(question, DecodeQuestion(old(items)[k]))))
      ensures (question.pk == "" || question.sk == "") && WellFormed(old(items)) ==>
        && WellFormed(items)
        && (r == Pass ==> exists k | k in QuestionMatches(old(items), question.id) ::
             items == old(items)[k := WithText(old(items)[k], question.text)])
    {
      var q := question;
      if q.pk == "" || q.sk == "" {
        var existing := GetQuestion(q.id);
        if existing.None? {
          return Fail(NotFound(QuestionEntity, q.id));
        }
        ghost var k :| k in QuestionMatches(items, q.id) && DecodeQuestion(items[k]) == QuestionShell(existing.value);
        q := RebuildQuestion(q, existing.value);
        assert EncodeQuestion(q) == EncodeQuestion(RebuildQuestion(question, DecodeQuestion(items[k])));
        if WellFormed(items) {
          RebuiltQuestionChangesOnlyText(items, question, k);
        }
      }
      PutItem(EncodeQuestion(q));
      return Pass;
    }

    /** Deletes every option of the question, then the question's own entry; stops at the first failing option delete. */
    method DeleteQuestion(questionId: string) returns (r: Outcome<Error>)
      requires Valid()
      modifies this
      ensures Valid()
      ensures Submap(items, old(items))
      ensures QuestionMatches(old(items), questionId) == {} ==>
        r == Fail(NotFound(QuestionEntity, questionId)) && items == old(items)
      ensures r == Pass ==> exists k | k in QuestionMatches(old(items), questionId) ::
        (MakeKey(QuestionEntity, questionId), MakeKey(EventEntity, DecodeQuestion(old(items)[k]).eventId)) !in items
      ensures r.Fail? && QuestionMatches(old(items), questionId) != {} ==>
        && r.error.ChildDeleteFailed? && r.error.entity == OptionEntity
        && forall k | k in QuestionMatches(old(items), questionId) :: k in items
      ensures WellFormed(old(items)) && QuestionMatches(old(items), questionId) != {} ==>
        r == Pass && items == old(items) - QuestionSubtree(old(items), questionId)
      ensures WellFormed(old(items)) ==> WellFormed(items)
    {
      var question := GetQuestion(questionId);
      if question.None? {
        return Fail(NotFound(QuestionEntity, questionId));
      }
      ghost var k :| k in QuestionMatches(items, questionId) && DecodeQuestion(items[k]) == QuestionShell(question.value);
      ghost var questionKeys := QuestionMatches(items, questionId);
      var options, found := GetOptionsByQuestionID(questionId);
      NothingListedYet(items, found);
      for i := 0 to |options|
        invariant Valid()
        invariant Submap(items, old(items))
        invariant WellFormed(old(items)) ==> items == old(items) - Elems(found[..i])
        invariant questionKeys <= items.Keys
      {
        if WellFormed(old(items)) {
          NextListedOption(old(items), questionId, found, options, i);
        }
        ghost var before := items;
        var res := DeleteOption(options[i].id);
        SubmapTransitive(items, before, old(items));
        if res.Fail? {
          return Fail(ChildDeleteFailed(OptionEntity, options[i].id, res.error));
        }
        ghost var j :| j in OptionMatches(before, options[i].id) && items == before
          - {(MakeKey(OptionEntity, options[i].id), MakeKey(QuestionEntity, DecodeOption(before[j]).questionId))};
        OptionKeyIsNoQuestionMatch(old(items), questionId, options[i].id, MakeKey(QuestionEntity, DecodeOption(before[j]).questionId));
      }
      var questionKey := (MakeKey(QuestionEntity, questionId), MakeKey(EventEntity, question.value.eventId));
      DeleteItem(questionKey);
      if WellFormed(old(items)) {
        assert found[..|options|] == found;
        ListedOptionsCoverQuestion(old(items), questionId, found, k, question.value.eventId);
      }
      assert DecodeQuestion(old(items)[k]).eventId == question.value.eventId && questionKey !in items;
      return Pass;
    }

    /** The event's questions from the event-id index, each with its options filled in. */
    method GetQuestionsByEventID(eventId: string) returns (questions: seq<Question>, ghost found: seq<Key>)
      requires Valid()
      ensures ListsQuestions(items, eventId, questions)
      ensures ListedQuestionKeys(items, eventId, found, QuestionIds(questions))
    {
      var m := items;
      var keys := Scan(EventIdIndex(m, eventId));
      found := keys;
      questions := seq(|keys|, i requires 0 <= i < |keys| && keys[i] in m => DecodeQuestion(m[keys[i]]));
      for i := 0 to |questions|
        invariant |questions| == |keys|
        invariant forall j | 0 <= j < |keys| :: QuestionShell(questions[j]) == DecodeQuestion(m[keys[j]])
        invariant forall j | 0 <= j < i :: ListsOptions(m, questions[j].id, questions[j].options)
      {
        var options, _ := GetOptionsByQuestionID(questions[i].id);
        questions := questions[i := questions[i].(options := options)];
      }
      DecodedListing(m, EventIdIndex(m, eventId), keys, DecodeQuestion, QuestionShells(questions));
    }

    // -------------------------------------------------------------------------
    // Options

    method AddOption(questionId: string, option: Option)
      requires Valid()
      modifies this
      ensures Valid()
      ensures items == Put(old(items), EncodeOption(WithOptionKeys(option, questionId)))
      ensures (option.pk == "" || option.sk == "") && WellFormed(old(items))
        && PkFreeExcept(old(items), MakeKey(OptionEntity, option.id), MakeKey(QuestionEntity, questionId))
        ==> WellFormed(items)
    {
      var o := option;
      if o.pk == "" || o.sk == "" {
        o := NewOption(o.id, questionId, o.text);
        if WellFormed(items) && PkFreeExcept(items, o.pk, o.sk) {
          PutCanonicalKeepsWellFormed(items, EncodeOption(o));
        }
      }
      PutItem(EncodeOption(o));
    }

    /** Finds the option by type and pk (its sort key is unknown), taking the first match. */
    method GetOption(optionId: string) returns (r: Maybe<Option>)
      requires Valid()
      ensures IsOptionLookup(items, optionId, r)
    {
      var keys := Scan(OptionMatches(items, optionId));
      if |keys| == 0 {
        return None;
      }
      assert keys[0] in OptionMatches(items, optionId);
      return Some(DecodeOption(items[keys[0]]));
    }

    /** An option without keys is rebuilt from the stored one: its question and votes are kept, its text replaced. */
    method UpdateOption(option: Option) returns (r: Outcome<Error>)
      requires Valid()
      modifies this
      ensures Valid()
      ensures option.pk != "" && option.sk != "" ==>
        r == Pass && items == Put(old(items), EncodeOption(option))
      ensures (option.pk == "" || option.sk == "") && OptionMatches(old(items), option.id) == {} ==>
        r == Fail(NotFound(OptionEntity, option.id)) && items == old(items)
      ensures (option.pk == "" || option.sk == "") && OptionMatches(old(items), option.id) != {} ==>
        && r == Pass
        && exists k | k in OptionMatches(old(items), option.id) ::
             items == Put(old(items), EncodeOption(RebuildOption(option, DecodeOption(old(items)[k]))))
      ensures (option.pk == "" || option.sk == "") && WellFormed(old(items)) ==>
        && WellFormed(items)
        && (r == Pass ==> exists k | k in OptionMatches(old(items), option.id) ::
             items == old(items)[k := WithText(old(items)[k], option.text)])
    {
      var o := option;
      if o.pk == "" || o.sk == "" {
        var existing := GetOption(o.id);
        if existing.None? {
          return Fail(NotFound(OptionEntity, o.id));
        }
        ghost var k :| k in OptionMatches(items, o.id) && DecodeOption(items[k]) == existing.value;
        o := RebuildOption(o, existing.value);
        if WellFormed(items) {
          RebuiltOptionChangesOnlyText(items, option, k);
        }
      }
      PutItem(EncodeOption(o));
      return Pass;
    }

    /** Looks the option up to learn its question, then deletes the entry under that question. */
    method DeleteOption(optionId: string) returns (r: Outcome<Error>)
      requires Valid()
      modifies this
      ensures Valid()
      ensures Submap(items, old(items))
      ensures OptionMatches(old(items), optionId) == {} ==>
        r == Fail(NotFound(OptionEntity, optionId)) && items == old(items)
      ensures OptionMatches(old(items), optionId) != {} ==>
        && r == Pass
        && exists k | k in OptionMatches(old(items), optionId) ::
             items == old(items) - {(MakeKey(OptionEntity, optionId), MakeKey(QuestionEntity, DecodeOption(old(items)[k]).questionId))}
      ensures WellFormed(old(items)) ==>
        && WellFormed(items)
        && items == old(items) - OptionMatches(old(items), optionId)
        && OptionMatches(items, optionId) == {}
    {
      var option := GetOption(optionId);
      if option.None? {
        return Fail(NotFound(OptionEntity, optionId));
      }
      ghost var k :| k in OptionMatches(items, optionId) && DecodeOption(items[k]) == option.value;
      if WellFormed(items) {
        MatchIsUnique(items, OptionEntity, optionId, k);
        RemoveKeepsWellFormed(items, {k});
      }
      DeleteItem((MakeKey(OptionEntity, optionId), MakeKey(QuestionEntity, option.value.questionId)));
      return Pass;
    }

    /** Read, add one vote, write back through UpdateOption. */
    method VoteOption(optionId: string) returns (r: Outcome<Error>)
      requires Valid()
      modifies this
      ensures Valid()
      ensures OptionMatches(old(items), optionId) == {} ==>
        r == Fail(NotFound(OptionEntity, optionId)) && items == old(items)
      ensures OptionMatches(old(items), optionId) != {} ==>
        && r == Pass
        && exists k | k in OptionMatches(old(items), optionId) :: items == old(items)[k := Voted(old(items)[k])]
      ensures WellFormed(old(items)) ==> WellFormed(items)
    {
      var option := GetOption(optionId);
      if option.None? {
        return Fail(NotFound(OptionEntity, optionId));
      }
      ghost var k :| k in OptionMatches(items, optionId) && DecodeOption(items[k]) == option.value;
      if WellFormed(items) {
        VoteKeepsWellFormed(items, optionId, k);
      }
      var o := option.value.(votes := option.value.votes + 1);
      assert EncodeOption(o) == Voted(items[k]);
      r := UpdateOption(o);
    }

    /** The question's options from the question-id index. */
    method GetOptionsByQuestionID(questionId: string) returns (options: seq<Option>, ghost found: seq<Key>)
      requires Valid()
      ensures ListsOptions(items, questionId, options)
      ensures ListedOptionKeys(items, questionId, found, options)
    {
      var m := items;
      var keys := Scan(QuestionIdIndex(m, questionId));
      found := keys;
      options := seq(|keys|, i requires 0 <= i < |keys| && keys[i] in m => DecodeOption(m[keys[i]]));
      DecodedListing(m, QuestionIdIndex(m, questionId), keys, DecodeOption, options);
    }
  }
}
