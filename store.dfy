/**
 * The single table as an abstract map from (pk, sk) to item, the three
 * secondary indexes as exact filters over it, and the facts about keys,
 * writes and cascades that the data-access layer relies on.
 */
module Store {
  import opened Wrappers
  import opened Models
  import opened Codec

  /** A composite primary key (pk, sk). */
  type Key = (string, string)

  function KeyOf(it: Item): Key {
    (it.pk, it.sk)
  }

  /** Every entry is stored under its own pk and sk, neither of them empty. */
  ghost predicate Consistent(m: map<Key, Item>) {
    forall k | k in m :: KeyOf(m[k]) == k && k.0 != "" && k.1 != ""
  }

  /** PutItem: insert or overwrite the entry at the item's key. */
  function Put(m: map<Key, Item>, it: Item): map<Key, Item> {
    m[KeyOf(it) := it]
  }

  /** `m` holds some of the entries of `n`, unchanged. */
  ghost predicate Submap(m: map<Key, Item>, n: map<Key, Item>) {
    forall k | k in m :: k in n && m[k] == n[k]
  }

  lemma SubmapTransitive(a: map<Key, Item>, b: map<Key, Item>, c: map<Key, Item>)
    requires Submap(a, b) && Submap(b, c)
    ensures Submap(a, c)
  {
  }

  // ---------------------------------------------------------------------------
  // Secondary indexes

  /** EntityTypeIndex queried on `entity_type` alone. */
  function TypeIndex(m: map<Key, Item>, entityType: string): (r: set<Key>)
    ensures r <= m.Keys
  {
    set k | k in m && m[k].entityType == entityType
  }

  /** EntityTypeIndex queried on `entity_type` and `pk`. */
  function TypeIndexWithPk(m: map<Key, Item>, entityType: string, pk: string): (r: set<Key>)
    ensures r <= m.Keys
  {
    set k | k in m && m[k].entityType == entityType && m[k].pk == pk
  }

  /** EventIDIndex on `event_id`, filtered to `entity_type = QUESTION`; only question items carry `event_id`. */
  function EventIdIndex(m: map<Key, Item>, eventId: string): (r: set<Key>)
    ensures r <= m.Keys
  {
    set k | k in m && m[k].QuestionItem? && m[k].eventId == eventId && m[k].entityType == QuestionEntity
  }

  /** QuestionIDIndex on `question_id`, filtered to `entity_type = OPTION`; only option items carry `question_id`. */
  function QuestionIdIndex(m: map<Key, Item>, questionId: string): (r: set<Key>)
    ensures r <= m.Keys
  {
    set k | k in m && m[k].OptionItem? && m[k].questionId == questionId && m[k].entityType == OptionEntity
  }

  function EventKey(id: string): Key {
    (MakeKey(EventEntity, id), MakeKey(EventEntity, id))
  }

  /** The entries a lookup of question `id` by type and pk can return. */
  function QuestionMatches(m: map<Key, Item>, id: string): set<Key> {
    TypeIndexWithPk(m, QuestionEntity, MakeKey(QuestionEntity, id))
  }

  /** The entries a lookup of option `id` by type and pk can return. */
  function OptionMatches(m: map<Key, Item>, id: string): set<Key> {
    TypeIndexWithPk(m, OptionEntity, MakeKey(OptionEntity, id))
  }

  // ---------------------------------------------------------------------------
  // Query results

  /** `s` lists the elements of `content` in some order, each once. */
  ghost predicate IsListing<T(!new)>(s: seq<T>, content: set<T>) {
    && (forall i, j | 0 <= i < j < |s| :: s[i] != s[j])
    && (forall x :: x in s <==> x in content)
  }

  /** A query: the matching keys, in an order the store chooses. */
  method Scan(keys: set<Key>) returns (found: seq<Key>)
    ensures IsListing(found, keys)
  {
    found := [];
    var rest := keys;
    while rest != {}
      invariant rest <= keys
      invariant forall k :: k in found <==> k in keys && k !in rest
      invariant forall i, j | 0 <= i < j < |found| :: found[i] != found[j]
      decreases rest
    {
      var k :| k in rest;
      found := found + [k];
      rest := rest - {k};
    }
  }

  /** Decoding the entries a query listed gives a listing of the decoded entries, provided decoding keeps the key. */
  lemma DecodedListing<T(!new)>(m: map<Key, Item>, keys: set<Key>, found: seq<Key>, decode: Item -> T, out: seq<T>)
    requires Consistent(m) && keys <= m.Keys
    requires forall a, b :: decode(a) == decode(b) ==> KeyOf(a) == KeyOf(b)
    requires IsListing(found, keys)
    requires |out| == |found| && forall i | 0 <= i < |found| :: out[i] == decode(m[found[i]])
    ensures IsListing(out, set k | k in m && k in keys :: decode(m[k]))
  {
    var content := set k | k in m && k in keys :: decode(m[k]);
    forall i, j | 0 <= i < j < |out| ensures out[i] != out[j] {
      assert found[i] != found[j];
    }
    forall x | x in content ensures x in out {
      var k :| k in m && k in keys && x == decode(m[k]);
      var i :| 0 <= i < |found| && found[i] == k;
      assert out[i] == x;
    }
  }

  function QuestionShell(q: Question): Question {
    q.(options := [])
  }

  function EventShell(e: Event): Event {
    e.(questions := [])
  }

  function QuestionShells(qs: seq<Question>): seq<Question> {
    seq(|qs|, i requires 0 <= i < |qs| => QuestionShell(qs[i]))
  }

  function EventShells(es: seq<Event>): seq<Event> {
    seq(|es|, i requires 0 <= i < |es| => EventShell(es[i]))
  }

  /** The options stored under question `questionId`, decoded. */
  ghost function OptionsOf(m: map<Key, Item>, questionId: string): set<Option> {
    set k | k in m && k in QuestionIdIndex(m, questionId) :: DecodeOption(m[k])
  }

  /** The questions stored under event `eventId`, decoded, without their options. */
  ghost function QuestionsOf(m: map<Key, Item>, eventId: string): set<Question> {
    set k | k in m && k in EventIdIndex(m, eventId) :: DecodeQuestion(m[k])
  }

  /** The events stored in the table, decoded, without their questions. */
  ghost function EventsOf(m: map<Key, Item>): set<Event> {
    set k | k in m && k in TypeIndex(m, EventEntity) :: DecodeEvent(m[k])
  }

  /** `found` lists the keys the question-id index holds for `questionId`, and `options` their decoded items, in the same order. */
  ghost predicate ListedOptionKeys(m: map<Key, Item>, questionId: string, found: seq<Key>, options: seq<Option>) {
    && IsListing(found, QuestionIdIndex(m, questionId))
    && |options| == |found|
    && forall j | 0 <= j < |found| :: found[j] in m && options[j] == DecodeOption(m[found[j]])
  }

  /** `found` lists the keys the event-id index holds for `eventId`, and `ids` the ids of their items, in the same order. */
  ghost predicate ListedQuestionKeys(m: map<Key, Item>, eventId: string, found: seq<Key>, ids: seq<string>) {
    && IsListing(found, EventIdIndex(m, eventId))
    && |ids| == |found|
    && forall j | 0 <= j < |found| :: found[j] in m && ids[j] == m[found[j]].id
  }

  function QuestionIds(qs: seq<Question>): seq<string> {
    seq(|qs|, i requires 0 <= i < |qs| => qs[i].id)
  }

  /** `opts` is the option fan-out of question `questionId`. */
  ghost predicate ListsOptions(m: map<Key, Item>, questionId: string, opts: seq<Option>) {
    IsListing(opts, OptionsOf(m, questionId))
  }

  /** `qs` is the question fan-out of event `eventId`, each question with its own option fan-out. */
  ghost predicate ListsQuestions(m: map<Key, Item>, eventId: string, qs: seq<Question>) {
    && IsListing(QuestionShells(qs), QuestionsOf(m, eventId))
    && forall i | 0 <= i < |qs| :: ListsOptions(m, qs[i].id, qs[i].options)
  }

  /** `es` lists every event, each with its two-level fan-out. */
  ghost predicate ListsEvents(m: map<Key, Item>, es: seq<Event>) {
    && IsListing(EventShells(es), EventsOf(m))
    && forall i | 0 <= i < |es| :: ListsQuestions(m, es[i].id, es[i].questions)
  }

  // ---------------------------------------------------------------------------
  // Well-formed tables

  /** The entity type an item's attributes belong to. */
  function KindOf(it: Item): string {
    match it
    case EventItem(_, _, _, _, _) => EventEntity
    case QuestionItem(_, _, _, _, _, _) => QuestionEntity
    case OptionItem(_, _, _, _, _, _, _) => OptionEntity
  }

  /** The sort key the constructors give an item: its own key for an event, its parent's otherwise. */
  function ParentKey(it: Item): string {
    match it
    case EventItem(_, _, id, _, _) => MakeKey(EventEntity, id)
    case QuestionItem(_, _, _, eventId, _, _) => MakeKey(EventEntity, eventId)
    case OptionItem(_, _, _, questionId, _, _, _) => MakeKey(QuestionEntity, questionId)
  }

  /** The item is keyed and typed as the matching constructor would key and type it. */
  predicate Canonical(it: Item) {
    it.pk == MakeKey(KindOf(it), it.id) && it.sk == ParentKey(it) && it.entityType == KindOf(it)
  }

  /** Every entry is canonical, and no two entries share a pk (ids are unique within a type). */
  ghost predicate WellFormed(m: map<Key, Item>) {
    && Consistent(m)
    && (forall k | k in m :: Canonical(m[k]))
    && (forall k1, k2 | k1 in m && k2 in m && k1.0 == k2.0 :: k1 == k2)
  }

  /** Id `id` is unused in `m` except, possibly, by the entry at (pk, sk) itself. */
  ghost predicate PkFreeExcept(m: map<Key, Item>, pk: string, sk: string) {
    forall k | k in m && k.0 == pk :: k.1 == sk
  }

  /** The question lookup: absent exactly when no entry matches, otherwise a match with its option fan-out. */
  ghost predicate IsQuestionLookup(m: map<Key, Item>, id: string, r: Maybe<Question>) {
    && (r.None? <==> QuestionMatches(m, id) == {})
    && (r.Some? ==>
          && (exists k | k in QuestionMatches(m, id) :: DecodeQuestion(m[k]) == QuestionShell(r.value))
          && ListsOptions(m, id, r.value.options))
  }

  /** The option lookup: absent exactly when no entry matches, otherwise a match. */
  ghost predicate IsOptionLookup(m: map<Key, Item>, id: string, r: Maybe<Option>) {
    && (r.None? <==> OptionMatches(m, id) == {})
    && (r.Some? ==> exists k | k in OptionMatches(m, id) :: DecodeOption(m[k]) == r.value)
  }

  /** The event lookup by exact key: absent exactly when no entry is there, otherwise it with its two-level fan-out. */
  ghost predicate IsEventLookup(m: map<Key, Item>, id: string, r: Maybe<Event>) {
    && (r.None? <==> EventKey(id) !in m)
    && (r.Some? ==>
          && EventShell(r.value) == DecodeEvent(m[EventKey(id)])
          && ListsQuestions(m, id, r.value.questions))
  }

  /** Two canonical items with the same pk are of the same kind and have the same id. */
  lemma SamePkSameEntity(a: Item, b: Item)
    requires Canonical(a) && Canonical(b) && a.pk == b.pk
    ensures KindOf(a) == KindOf(b) && a.id == b.id
  {
    KeyInjective(KindOf(a), a.id, KindOf(b), b.id);
  }

  /** In a well-formed table a lookup by type and `<type>#id` finds at most one entry: the entity `id` itself. */
  lemma MatchIsUnique(m: map<Key, Item>, entityType: string, id: string, k: Key)
    requires WellFormed(m)
    requires k in TypeIndexWithPk(m, entityType, MakeKey(entityType, id))
    ensures KindOf(m[k]) == entityType && m[k].id == id
    ensures k == (MakeKey(entityType, id), ParentKey(m[k]))
    ensures TypeIndexWithPk(m, entityType, MakeKey(entityType, id)) == {k}
  {
    KeyInjective(KindOf(m[k]), m[k].id, entityType, id);
  }

  /** Removing entries keeps a table well-formed. */
  lemma RemoveKeepsWellFormed(m: map<Key, Item>, s: set<Key>)
    requires WellFormed(m)
    ensures WellFormed(m - s) && Submap(m - s, m)
  {
  }

  /** Writing a canonical item whose pk no other entry uses keeps a table well-formed. */
  lemma PutCanonicalKeepsWellFormed(m: map<Key, Item>, it: Item)
    requires WellFormed(m) && Canonical(it)
    requires PkFreeExcept(m, it.pk, it.sk)
    ensures WellFormed(Put(m, it))
  {
    assert it.pk != "" && it.sk != "" by {
      assert it.pk[|KindOf(it)|] == '#';
      assert it.sk == ParentKey(it);
      match it
      case EventItem(_, _, id, _, _) => assert it.sk[|EventEntity|] == '#';
      case QuestionItem(_, _, _, eventId, _, _) => assert it.sk[|EventEntity|] == '#';
      case OptionItem(_, _, _, questionId, _, _, _) => assert it.sk[|QuestionEntity|] == '#';
    }
  }

  /** Every event id is free for its own key: re-creating an event overwrites it in place. */
  lemma NewEventKeyIsFree(m: map<Key, Item>, id: string, name: string)
    requires WellFormed(m)
    ensures PkFreeExcept(m, EncodeEvent(NewEvent(id, name)).pk, EncodeEvent(NewEvent(id, name)).sk)
    ensures WellFormed(Put(m, EncodeEvent(NewEvent(id, name))))
  {
    var it := EncodeEvent(NewEvent(id, name));
    assert Canonical(it);
    forall k | k in m && k.0 == it.pk
      ensures k.1 == it.sk
    {
      SamePkSameEntity(m[k], it);
    }
    PutCanonicalKeepsWellFormed(m, it);
  }

  // ---------------------------------------------------------------------------
  // Reading back what was written

  /** An event created without keys is found by its exact key and decodes to the constructed event. */
  lemma CreatedEventReadsBack(m: map<Key, Item>, id: string, name: string)
    ensures EventKey(id) in Put(m, EncodeEvent(NewEvent(id, name)))
    ensures DecodeEvent(Put(m, EncodeEvent(NewEvent(id, name)))[EventKey(id)]) == NewEvent(id, name)
    ensures EventKey(id) in TypeIndex(Put(m, EncodeEvent(NewEvent(id, name))), EventEntity)
  {
  }

  /**
   * A question added without keys to a well-formed table where its id is
   * free is the only match of that id, decodes to the constructed question,
   * and is listed under its event.
   */
  lemma AddedQuestionReadsBack(m: map<Key, Item>, id: string, eventId: string, text: string)
    requires WellFormed(m) && PkFreeExcept(m, MakeKey(QuestionEntity, id), MakeKey(EventEntity, eventId))
    ensures var it := EncodeQuestion(NewQuestion(id, eventId, text));
      && QuestionMatches(Put(m, it), id) == {KeyOf(it)}
      && DecodeQuestion(Put(m, it)[KeyOf(it)]) == NewQuestion(id, eventId, text)
      && KeyOf(it) in EventIdIndex(Put(m, it), eventId)
  {
    var it := EncodeQuestion(NewQuestion(id, eventId, text));
    PutCanonicalKeepsWellFormed(m, it);
    assert KeyOf(it) in QuestionMatches(Put(m, it), id);
    MatchIsUnique(Put(m, it), QuestionEntity, id, KeyOf(it));
  }

  /**
   * An option added without keys to a well-formed table where its id is free
   * is the only match of that id, decodes to the constructed option with no
   * votes, and is listed under its question.
   */
  lemma AddedOptionReadsBack(m: map<Key, Item>, id: string, questionId: string, text: string)
    requires WellFormed(m) && PkFreeExcept(m, MakeKey(OptionEntity, id), MakeKey(QuestionEntity, questionId))
    ensures var it := EncodeOption(NewOption(id, questionId, text));
      && OptionMatches(Put(m, it), id) == {KeyOf(it)}
      && DecodeOption(Put(m, it)[KeyOf(it)]) == NewOption(id, questionId, text)
      && KeyOf(it) in QuestionIdIndex(Put(m, it), questionId)
  {
    var it := EncodeOption(NewOption(id, questionId, text));
    PutCanonicalKeepsWellFormed(m, it);
    assert KeyOf(it) in OptionMatches(Put(m, it), id);
    MatchIsUnique(Put(m, it), OptionEntity, id, KeyOf(it));
  }

  // ---------------------------------------------------------------------------
  // What the write paths store

  /** The keys-missing path of create and update: rebuild the event with its constructor. */
  function WithEventKeys(e: Event): (r: Event)
    ensures r.pk != "" && r.sk != ""
    ensures e.pk != "" && e.sk != "" ==> r == e
  {
    if e.pk == "" || e.sk == "" then
      assert MakeKey(EventEntity, e.id)[|EventEntity|] == '#';
      NewEvent(e.id, e.name)
    else e
  }

  /** The keys-missing path of AddQuestion: rebuild under the given event id. */
  function WithQuestionKeys(q: Question, eventId: string): (r: Question)
    ensures r.pk != "" && r.sk != ""
    ensures q.pk != "" && q.sk != "" ==> r == q
  {
    if q.pk == "" || q.sk == "" then
      assert MakeKey(QuestionEntity, q.id)[|QuestionEntity|] == '#';
      assert MakeKey(EventEntity, eventId)[|EventEntity|] == '#';
      NewQuestion(q.id, eventId, q.text)
    else q
  }

  /** The keys-missing path of AddOption: rebuild under the given question id. */
  function WithOptionKeys(o: Option, questionId: string): (r: Option)
    ensures r.pk != "" && r.sk != ""
    ensures o.pk != "" && o.sk != "" ==> r == o
  {
    if o.pk == "" || o.sk == "" then
      assert MakeKey(OptionEntity, o.id)[|OptionEntity|] == '#';
      assert MakeKey(QuestionEntity, questionId)[|QuestionEntity|] == '#';
      NewOption(o.id, questionId, o.text)
    else o
  }

  /** The keys-missing path of UpdateQuestion: new text under the stored question's event, stored options kept. */
  function RebuildQuestion(q: Question, existing: Question): Question {
    NewQuestion(q.id, existing.eventId, q.text).(options := existing.options)
  }

  /** The keys-missing path of UpdateOption: new text under the stored option's question, stored votes kept. */
  function RebuildOption(o: Option, existing: Option): Option {
    NewOption(o.id, existing.questionId, o.text).(votes := existing.votes)
  }

  /** The option an entry decodes to, with one more vote, as written back by a vote. */
  function Voted(it: Item): (r: Item)
    ensures KeyOf(r) == KeyOf(it) && r.OptionItem?
    ensures r.votes == DecodeOption(it).votes + 1
    ensures it.OptionItem? ==> r == it.(votes := it.votes + 1)
  {
    var o := DecodeOption(it);
    EncodeOption(o.(votes := o.votes + 1))
  }

  /** The item with its `text` attribute replaced; an event item has none. */
  function WithText(it: Item, text: string): Item {
    match it
    case EventItem(_, _, _, _, _) => it
    case QuestionItem(pk, sk, id, eventId, _, et) => QuestionItem(pk, sk, id, eventId, text, et)
    case OptionItem(pk, sk, id, questionId, _, votes, et) => OptionItem(pk, sk, id, questionId, text, votes, et)
  }

  /** Overwriting an entry with a canonical item under the same key keeps a table well-formed. */
  lemma ReplaceKeepsWellFormed(m: map<Key, Item>, k: Key, it: Item)
    requires WellFormed(m) && k in m && KeyOf(it) == k && Canonical(it)
    ensures WellFormed(m[k := it])
  {
  }

  /** In a well-formed table, updating a stored question without keys changes its text and nothing else. */
  lemma RebuiltQuestionChangesOnlyText(m: map<Key, Item>, q: Question, k: Key)
    requires WellFormed(m) && k in QuestionMatches(m, q.id)
    ensures m[k].QuestionItem?
    ensures Put(m, EncodeQuestion(RebuildQuestion(q, DecodeQuestion(m[k])))) == m[k := WithText(m[k], q.text)]
    ensures WellFormed(m[k := WithText(m[k], q.text)])
  {
    MatchIsUnique(m, QuestionEntity, q.id, k);
    var it := EncodeQuestion(RebuildQuestion(q, DecodeQuestion(m[k])));
    assert it == WithText(m[k], q.text);
    ReplaceKeepsWellFormed(m, k, it);
  }

  /** In a well-formed table, updating a stored option without keys changes its text and nothing else: votes survive. */
  lemma RebuiltOptionChangesOnlyText(m: map<Key, Item>, o: Option, k: Key)
    requires WellFormed(m) && k in OptionMatches(m, o.id)
    ensures m[k].OptionItem?
    ensures Put(m, EncodeOption(RebuildOption(o, DecodeOption(m[k])))) == m[k := WithText(m[k], o.text)]
    ensures WellFormed(m[k := WithText(m[k], o.text)])
  {
    MatchIsUnique(m, OptionEntity, o.id, k);
    var it := EncodeOption(RebuildOption(o, DecodeOption(m[k])));
    assert it == WithText(m[k], o.text);
    ReplaceKeepsWellFormed(m, k, it);
  }

  /** A vote on a well-formed table adds one to that option's count and changes nothing else. */
  lemma VoteKeepsWellFormed(m: map<Key, Item>, id: string, k: Key)
    requires WellFormed(m) && k in OptionMatches(m, id)
    ensures m[k].OptionItem? && Voted(m[k]) == m[k].(votes := m[k].votes + 1)
    ensures WellFormed(m[k := Voted(m[k])])
  {
    MatchIsUnique(m, OptionEntity, id, k);
    ReplaceKeepsWellFormed(m, k, Voted(m[k]));
  }

  // ---------------------------------------------------------------------------
  // Cascades

  /** What deleting question `questionId` removes: the question's entry and its options. */
  function QuestionSubtree(m: map<Key, Item>, questionId: string): set<Key> {
    QuestionMatches(m, questionId) + QuestionIdIndex(m, questionId)
  }

  /** The ids of the questions stored under event `eventId`. */
  ghost function StoredQuestionIds(m: map<Key, Item>, eventId: string): set<string> {
    set k | k in m && k in EventIdIndex(m, eventId) :: m[k].id
  }

  /** What deleting event `eventId` removes: the event, its questions and their options. */
  ghost function EventSubtree(m: map<Key, Item>, eventId: string): set<Key> {
    {EventKey(eventId)}
    + EventIdIndex(m, eventId)
    + (set k | k in m && m[k].OptionItem? && m[k].entityType == OptionEntity && m[k].questionId in StoredQuestionIds(m, eventId))
  }

  /** The union of the subtrees of several questions. */
  ghost function SubtreesOf(m: map<Key, Item>, ids: seq<string>): set<Key> {
    if ids == [] then {} else SubtreesOf(m, ids[..|ids| - 1]) + QuestionSubtree(m, ids[|ids| - 1])
  }

  lemma {:induction false} InSubtreesOf(m: map<Key, Item>, ids: seq<string>, k: Key)
    ensures k in SubtreesOf(m, ids) <==> exists j | 0 <= j < |ids| :: k in QuestionSubtree(m, ids[j])
  {
    if ids != [] {
      var n := |ids| - 1;
      InSubtreesOf(m, ids[..n], k);
      if k in SubtreesOf(m, ids[..n]) {
        var j :| 0 <= j < n && k in QuestionSubtree(m, ids[..n][j]);
        assert ids[..n][j] == ids[j];
      }
      if exists j | 0 <= j < |ids| :: k in QuestionSubtree(m, ids[j]) {
        var j :| 0 <= j < |ids| && k in QuestionSubtree(m, ids[j]);
        if j < n {
          assert ids[..n][j] == ids[j];
        }
      }
    }
  }

  /** On a part of a table, a subtree is the part of the table's subtree still present. */
  lemma SubtreeOfPart(m: map<Key, Item>, s: set<Key>, questionId: string)
    ensures (m - s) - QuestionSubtree(m - s, questionId) == m - (s + QuestionSubtree(m, questionId))
  {
    var lhs := (m - s) - QuestionSubtree(m - s, questionId);
    var rhs := m - (s + QuestionSubtree(m, questionId));
    assert lhs.Keys == rhs.Keys;
  }

  /** The subtrees of the listed questions lie inside the event's subtree. */
  lemma ListedSubtreesWithinEvent(m: map<Key, Item>, eventId: string, found: seq<Key>, ids: seq<string>, k: Key)
    requires WellFormed(m)
    requires ListedQuestionKeys(m, eventId, found, ids)
    requires k in SubtreesOf(m, ids)
    ensures k in EventSubtree(m, eventId)
  {
    InSubtreesOf(m, ids, k);
    var j :| 0 <= j < |ids| && k in QuestionSubtree(m, ids[j]);
    ListedQuestionIsUnique(m, eventId, found, ids, j);
    if k !in QuestionMatches(m, ids[j]) {
      assert found[j] in EventIdIndex(m, eventId);
      assert ids[j] in StoredQuestionIds(m, eventId);
    }
  }

  /** Every entry of the event's subtree but the event itself lies in the subtree of a listed question. */
  lemma EventWithinListedSubtrees(m: map<Key, Item>, eventId: string, found: seq<Key>, ids: seq<string>, k: Key)
    requires WellFormed(m)
    requires ListedQuestionKeys(m, eventId, found, ids)
    requires k in EventSubtree(m, eventId) && k != EventKey(eventId)
    ensures k in SubtreesOf(m, ids)
  {
    if k in EventIdIndex(m, eventId) {
      var j :| 0 <= j < |found| && found[j] == k;
      ListedQuestionIsUnique(m, eventId, found, ids, j);
    } else {
      var q :| q in m && q in EventIdIndex(m, eventId) && m[q].id == m[k].questionId;
      var j :| 0 <= j < |found| && found[j] == q;
      assert k in QuestionIdIndex(m, ids[j]);
    }
    InSubtreesOf(m, ids, k);
  }

  /** Deleting the questions an event query listed, one subtree after another, removes the event's whole subtree except the event entry. */
  lemma SubtreesOfEvent(m: map<Key, Item>, eventId: string, found: seq<Key>, ids: seq<string>)
    requires WellFormed(m)
    requires ListedQuestionKeys(m, eventId, found, ids)
    ensures SubtreesOf(m, ids) + {EventKey(eventId)} == EventSubtree(m, eventId)
  {
    forall k | k in SubtreesOf(m, ids)
      ensures k in EventSubtree(m, eventId)
    {
      ListedSubtreesWithinEvent(m, eventId, found, ids, k);
    }
    forall k | k in EventSubtree(m, eventId) && k != EventKey(eventId)
      ensures k in SubtreesOf(m, ids)
    {
      EventWithinListedSubtrees(m, eventId, found, ids, k);
    }
  }

  /** A question of a removed event subtree can no longer be found, nor can any option under it. */
  lemma RemovedQuestionIsGone(m: map<Key, Item>, eventId: string, k: Key)
    requires WellFormed(m) && k in m && k in EventSubtree(m, eventId) && m[k].QuestionItem?
    ensures QuestionMatches(m - EventSubtree(m, eventId), m[k].id) == {}
    ensures QuestionIdIndex(m - EventSubtree(m, eventId), m[k].id) == {}
  {
    var id := m[k].id;
    var rest := m - EventSubtree(m, eventId);
    if k == EventKey(eventId) {
      KeyInjective(QuestionEntity, id, EventEntity, eventId);
    }
    assert k in EventIdIndex(m, eventId);
    assert id in StoredQuestionIds(m, eventId);
    assert k in QuestionMatches(m, id);
    MatchIsUnique(m, QuestionEntity, id, k);
  }

  /** An option of a removed event subtree can no longer be found. */
  lemma RemovedOptionIsGone(m: map<Key, Item>, eventId: string, k: Key)
    requires WellFormed(m) && k in m && k in EventSubtree(m, eventId) && m[k].OptionItem?
    ensures OptionMatches(m - EventSubtree(m, eventId), m[k].id) == {}
  {
    var id := m[k].id;
    var rest := m - EventSubtree(m, eventId);
    assert k in OptionMatches(m, id);
    MatchIsUnique(m, OptionEntity, id, k);
  }

  /**
   * After an event's cascade, nothing of it is left: the event is gone, no
   * question lists it as its event, and a lookup of any former question or
   * option by id finds nothing. Everything outside the subtree is untouched.
   */
  lemma EventCascadeLeavesNoDescendants(m: map<Key, Item>, eventId: string)
    requires WellFormed(m)
    ensures var rest := m - EventSubtree(m, eventId);
      && WellFormed(rest)
      && EventKey(eventId) !in rest
      && EventIdIndex(rest, eventId) == {}
      && (forall k | k in m && k in EventSubtree(m, eventId) && m[k].QuestionItem? ::
            QuestionMatches(rest, m[k].id) == {} && QuestionIdIndex(rest, m[k].id) == {})
      && (forall k | k in m && k in EventSubtree(m, eventId) && m[k].OptionItem? ::
            OptionMatches(rest, m[k].id) == {})
      && (forall k | k in m && k !in EventSubtree(m, eventId) :: k in rest && rest[k] == m[k])
  {
    var sub := EventSubtree(m, eventId);
    var rest := m - sub;
    RemoveKeepsWellFormed(m, sub);
    forall k | k in m && k in sub && m[k].QuestionItem?
      ensures QuestionMatches(rest, m[k].id) == {} && QuestionIdIndex(rest, m[k].id) == {}
    {
      RemovedQuestionIsGone(m, eventId, k);
    }
    forall k | k in m && k in sub && m[k].OptionItem?
      ensures OptionMatches(rest, m[k].id) == {}
    {
      RemovedOptionIsGone(m, eventId, k);
    }
  }

  /** The keys a listing holds. */
  ghost function Elems(s: seq<Key>): set<Key> {
    set k | k in s
  }

  /** One more element of a listing without repeats extends its prefix by a key the prefix lacks. */
  lemma PrefixElems(s: seq<Key>, i: nat)
    requires i < |s| && forall a, b | 0 <= a < b < |s| :: s[a] != s[b]
    ensures s[i] !in Elems(s[..i])
    ensures Elems(s[..i + 1]) == Elems(s[..i]) + {s[i]}
  {
    assert s[..i + 1] == s[..i] + [s[i]];
  }

  /** Removing a set and then one key is removing their union. */
  lemma RemoveOneMore(m: map<Key, Item>, s: set<Key>, k: Key)
    ensures (m - s) - {k} == m - (s + {k})
  {
    var lhs := (m - s) - {k};
    var rhs := m - (s + {k});
    assert lhs.Keys == rhs.Keys;
  }

  /** While a question's listed options are deleted in listing order, the next one is the only entry its id finds. */
  lemma NextListedOption(m: map<Key, Item>, questionId: string, found: seq<Key>, options: seq<Option>, i: nat)
    requires WellFormed(m)
    requires ListedOptionKeys(m, questionId, found, options)
    requires i < |found|
    ensures WellFormed(m - Elems(found[..i]))
    ensures OptionMatches(m - Elems(found[..i]), options[i].id) == {found[i]}
    ensures (m - Elems(found[..i])) - {found[i]} == m - Elems(found[..i + 1])
  {
    var done := Elems(found[..i]);
    RemoveKeepsWellFormed(m, done);
    PrefixElems(found, i);
    assert found[i] in QuestionIdIndex(m, questionId);
    MatchIsUnique(m - done, OptionEntity, options[i].id, found[i]);
    RemoveOneMore(m, done, found[i]);
  }

  /** Once all listed options are gone, deleting the question's own entry completes its subtree. */
  lemma ListedOptionsCoverQuestion(m: map<Key, Item>, questionId: string, found: seq<Key>, k: Key, eventId: string)
    requires WellFormed(m)
    requires IsListing(found, QuestionIdIndex(m, questionId))
    requires k in QuestionMatches(m, questionId) && DecodeQuestion(m[k]).eventId == eventId
    ensures (m - Elems(found)) - {(MakeKey(QuestionEntity, questionId), MakeKey(EventEntity, eventId))}
         == m - QuestionSubtree(m, questionId)
    ensures WellFormed(m - QuestionSubtree(m, questionId))
  {
    MatchIsUnique(m, QuestionEntity, questionId, k);
    RemoveKeepsWellFormed(m, QuestionSubtree(m, questionId));
    var lhs := (m - Elems(found)) - {k};
    var rhs := m - QuestionSubtree(m, questionId);
    assert lhs.Keys == rhs.Keys;
  }

  /** Deleting an option's entry never removes an entry that a question lookup can find: the pk prefixes differ. */
  lemma OptionKeyIsNoQuestionMatch(m: map<Key, Item>, questionId: string, optionId: string, sk: string)
    requires Consistent(m)
    ensures (MakeKey(OptionEntity, optionId), sk) !in QuestionMatches(m, questionId)
  {
    KeysOfDistinctTypesDiffer(questionId, optionId);
  }

  /** Before the first deletion nothing listed is gone. */
  lemma NothingListedYet(m: map<Key, Item>, s: seq<Key>)
    ensures m - Elems(s[..0]) == m
  {
    assert Elems(s[..0]) == {};
  }

  /** A listed question entry is the only match of its id. */
  lemma ListedQuestionIsUnique(m: map<Key, Item>, eventId: string, found: seq<Key>, ids: seq<string>, j: nat)
    requires WellFormed(m)
    requires ListedQuestionKeys(m, eventId, found, ids)
    requires j < |found|
    ensures m[found[j]].QuestionItem? && QuestionMatches(m, ids[j]) == {found[j]}
  {
    assert found[j] in EventIdIndex(m, eventId);
    MatchIsUnique(m, QuestionEntity, ids[j], found[j]);
  }

  /** A listed question entry lies in no subtree of a question listed before it. */
  lemma ListedQuestionOutsideEarlier(m: map<Key, Item>, eventId: string, found: seq<Key>, ids: seq<string>, i: nat)
    requires WellFormed(m)
    requires ListedQuestionKeys(m, eventId, found, ids)
    requires i < |found|
    ensures found[i] !in SubtreesOf(m, ids[..i])
  {
    ListedQuestionIsUnique(m, eventId, found, ids, i);
    forall j | 0 <= j < i
      ensures found[i] !in QuestionSubtree(m, ids[..i][j])
    {
      ListedQuestionIsUnique(m, eventId, found, ids, j);
      assert ids[..i][j] == ids[j];
    }
    InSubtreesOf(m, ids[..i], found[i]);
  }

  /** While an event's listed questions are deleted in listing order, the next one is still found, and deleting its subtree extends the deleted part. */
  lemma NextListedQuestion(m: map<Key, Item>, eventId: string, found: seq<Key>, ids: seq<string>, i: nat)
    requires WellFormed(m)
    requires ListedQuestionKeys(m, eventId, found, ids)
    requires i < |found|
    ensures WellFormed(m - SubtreesOf(m, ids[..i]))
    ensures found[i] in QuestionMatches(m - SubtreesOf(m, ids[..i]), ids[i])
    ensures (m - SubtreesOf(m, ids[..i])) - QuestionSubtree(m - SubtreesOf(m, ids[..i]), ids[i])
         == m - SubtreesOf(m, ids[..i + 1])
  {
    var done := SubtreesOf(m, ids[..i]);
    RemoveKeepsWellFormed(m, done);
    ListedQuestionOutsideEarlier(m, eventId, found, ids, i);
    ListedQuestionIsUnique(m, eventId, found, ids, i);
    SubtreeOfPart(m, done, ids[i]);
    SubtreesOfLongerPrefix(m, ids, i);
  }

  lemma SubtreesOfLongerPrefix(m: map<Key, Item>, ids: seq<string>, i: nat)
    requires i < |ids|
    ensures SubtreesOf(m, ids[..i + 1]) == SubtreesOf(m, ids[..i]) + QuestionSubtree(m, ids[i])
  {
    assert ids[..i + 1][..i] == ids[..i];
  }

  /** Before the first question is deleted no subtree is gone. */
  lemma NoSubtreeYet(m: map<Key, Item>, ids: seq<string>)
    ensures m - SubtreesOf(m, ids[..0]) == m
  {
    assert ids[..0] == [];
  }

  /** Once all listed questions' subtrees are gone, deleting the event's own entry completes its subtree. */
  lemma ListedQuestionsCoverEvent(m: map<Key, Item>, eventId: string, found: seq<Key>, ids: seq<string>)
    requires WellFormed(m)
    requires ListedQuestionKeys(m, eventId, found, ids)
    ensures (m - SubtreesOf(m, ids)) - {EventKey(eventId)} == m - EventSubtree(m, eventId)
    ensures WellFormed(m - EventSubtree(m, eventId))
  {
    SubtreesOfEvent(m, eventId, found, ids);
    RemoveKeepsWellFormed(m, EventSubtree(m, eventId));
    RemoveOneMore(m, SubtreesOf(m, ids), EventKey(eventId));
  }

  /** After a question's cascade the question and its options are gone and the table stays well-formed. */
  lemma QuestionCascadeLeavesNoDescendants(m: map<Key, Item>, questionId: string)
    requires WellFormed(m)
    ensures var rest := m - QuestionSubtree(m, questionId);
      && WellFormed(rest)
      && QuestionMatches(rest, questionId) == {}
      && OptionsOf(rest, questionId) == {}
      && (forall k | k in m && k in QuestionIdIndex(m, questionId) :: OptionMatches(rest, m[k].id) == {})
  {
    RemoveKeepsWellFormed(m, QuestionSubtree(m, questionId));
  }
}
