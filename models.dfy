/**
 * The three entity kinds of the single-table design, the composite keys the
 * constructors derive for them, and the winner rule of a question.
 */
module Models {
  import opened Wrappers

  /** Entity-type discriminants; each is also the prefix of its entity's keys. */
  const EventEntity: string := "EVENT"
  const QuestionEntity: string := "QUESTION"
  const OptionEntity: string := "OPTION"

  /** A partition or sort key: `<entity type>#<id>`. */
  function MakeKey(entityType: string, id: string): string {
    entityType + "#" + id
  }

  /** Position of the first '#' in `s`, or |s| when there is none. */
  function HashIndex(s: string): (i: nat)
    ensures i <= |s|
    ensures i < |s| ==> s[i] == '#'
    ensures forall j | 0 <= j < i :: s[j] != '#'
  {
    if s == [] then 0 else if s[0] == '#' then 0 else 1 + HashIndex(s[1..])
  }

  /** Splits a key at its first '#' into entity type and id; the inverse of MakeKey. */
  function SplitKey(k: string): (r: Maybe<(string, string)>)
    ensures r.None? <==> '#' !in k
    ensures r.Some? ==> '#' !in r.value.0 && MakeKey(r.value.0, r.value.1) == k
  {
    var i := HashIndex(k);
    if i == |k| then None
    else
      assert k == k[..i] + "#" + k[i + 1..];
      Some((k[..i], k[i + 1..]))
  }

  /** A key built from a '#'-free entity type splits back into that type and id. */
  lemma SplitMakeKey(entityType: string, id: string)
    requires '#' !in entityType
    ensures SplitKey(MakeKey(entityType, id)) == Some((entityType, id))
  {
    var k := MakeKey(entityType, id);
    assert k[|entityType|] == '#';
    assert forall j | 0 <= j < |entityType| :: k[j] == entityType[j];
    var i := HashIndex(k);
    assert i == |entityType|;
    assert k[..i] == entityType;
    assert k[i + 1..] == id;
  }

  /** Keys are injective: equal keys have equal entity types and equal ids. */
  lemma KeyInjective(t1: string, id1: string, t2: string, id2: string)
    requires '#' !in t1 && '#' !in t2
    ensures MakeKey(t1, id1) == MakeKey(t2, id2) <==> t1 == t2 && id1 == id2
  {
    SplitMakeKey(t1, id1);
    SplitMakeKey(t2, id2);
  }

  /** Keys of different entity types never collide, whatever the ids. */
  lemma KeysOfDistinctTypesDiffer(id1: string, id2: string)
    ensures MakeKey(EventEntity, id1) != MakeKey(QuestionEntity, id2)
    ensures MakeKey(EventEntity, id1) != MakeKey(OptionEntity, id2)
    ensures MakeKey(QuestionEntity, id1) != MakeKey(OptionEntity, id2)
  {
    KeyInjective(EventEntity, id1, QuestionEntity, id2);
    KeyInjective(EventEntity, id1, OptionEntity, id2);
    KeyInjective(QuestionEntity, id1, OptionEntity, id2);
  }

  /** A planning event; `questions` is filled by fan-out and never stored. */
  datatype Event = Event(
    pk: string, sk: string,
    id: string, name: string,
    questions: seq<Question>,
    entityType: string)

  /** A question of an event; `options` is filled by fan-out and never stored. */
  datatype Question = Question(
    pk: string, sk: string,
    id: string, eventId: string, text: string,
    options: seq<Option>,
    entityType: string)

  /** An answer option of a question, with its vote count. */
  datatype Option = Option(
    pk: string, sk: string,
    id: string, questionId: string, text: string,
    votes: int,
    entityType: string)

  /** An event keyed by itself: pk and sk are both its own key. */
  function NewEvent(id: string, name: string): (e: Event)
    ensures SplitKey(e.pk) == Some((EventEntity, id)) && e.sk == e.pk
    ensures e.id == id && e.name == name && e.questions == []
    ensures e.entityType == EventEntity
  {
    SplitMakeKey(EventEntity, id);
    Event(MakeKey(EventEntity, id), MakeKey(EventEntity, id), id, name, [], EventEntity)
  }

  /** A question keyed by its own id and sorted under its event's key. */
  function NewQuestion(id: string, eventId: string, text: string): (q: Question)
    ensures SplitKey(q.pk) == Some((QuestionEntity, id))
    ensures SplitKey(q.sk) == Some((EventEntity, eventId))
    ensures q.id == id && q.eventId == eventId && q.text == text && q.options == []
    ensures q.entityType == QuestionEntity
  {
    SplitMakeKey(QuestionEntity, id);
    SplitMakeKey(EventEntity, eventId);
    Question(MakeKey(QuestionEntity, id), MakeKey(EventEntity, eventId), id, eventId, text, [], QuestionEntity)
  }

  /** An option keyed by its own id and sorted under its question's key, with no votes. */
  function NewOption(id: string, questionId: string, text: string): (o: Option)
    ensures SplitKey(o.pk) == Some((OptionEntity, id))
    ensures SplitKey(o.sk) == Some((QuestionEntity, questionId))
    ensures o.id == id && o.questionId == questionId && o.text == text && o.votes == 0
    ensures o.entityType == OptionEntity
  {
    SplitMakeKey(OptionEntity, id);
    SplitMakeKey(QuestionEntity, questionId);
    Option(MakeKey(OptionEntity, id), MakeKey(QuestionEntity, questionId), id, questionId, text, 0, OptionEntity)
  }

  // ---------------------------------------------------------------------------
  // The winner rule

  /** Some option has a positive vote count. */
  predicate AnyPositive(options: seq<Option>) {
    exists i | 0 <= i < |options| :: options[i].votes > 0
  }

  /** The largest vote count among a non-empty list of options. */
  function MaxVotes(options: seq<Option>): (m: int)
    requires options != []
    ensures exists i | 0 <= i < |options| :: options[i].votes == m
    ensures forall i | 0 <= i < |options| :: options[i].votes <= m
  {
    if |options| == 1 then options[0].votes
    else
      var rest := MaxVotes(options[1..]);
      if options[0].votes > rest then options[0].votes else rest
  }

  /** The options whose vote count is `m`, in their original order. */
  function TopScorers(options: seq<Option>, m: int): seq<Option>
  {
    if options == [] then []
    else (if options[0].votes == m then [options[0]] else []) + TopScorers(options[1..], m)
  }

  /** The winners of a question: none without options or without a positive vote, else every option tied at the top. */
  function Winners(options: seq<Option>): seq<Option> {
    if options == [] || !AnyPositive(options) then []
    else TopScorers(options, MaxVotes(options))
  }

  /** `a` is `b` with some elements dropped, the others kept in order. */
  predicate IsSubsequence<T(==)>(a: seq<T>, b: seq<T>)
    decreases |b|
  {
    a == [] || (b != [] && if a[0] == b[0] then IsSubsequence(a[1..], b[1..]) else IsSubsequence(a, b[1..]))
  }

  /** The top scorers are exactly the options with `m` votes. */
  lemma {:induction false} TopScorersMembers(options: seq<Option>, m: int)
    ensures |TopScorers(options, m)| <= |options|
    ensures forall w | w in TopScorers(options, m) :: w in options && w.votes == m
    ensures forall o | o in options && o.votes == m :: o in TopScorers(options, m)
  {
    if options != [] {
      TopScorersMembers(options[1..], m);
      assert forall o | o in options[1..] :: o in options;
      assert forall o | o in options :: o == options[0] || o in options[1..];
    }
  }

  lemma {:induction false} TopScorersAppend(options: seq<Option>, o: Option, m: int)
    ensures TopScorers(options + [o], m) == TopScorers(options, m) + (if o.votes == m then [o] else [])
  {
    if options != [] {
      assert (options + [o])[1..] == options[1..] + [o];
      TopScorersAppend(options[1..], o, m);
    }
  }

  /** Extending a prefix by one option extends its top scorers by that option when it has `m` votes. */
  lemma TopScorersOfLongerPrefix(options: seq<Option>, i: nat, m: int)
    requires i < |options|
    ensures TopScorers(options[..i + 1], m)
         == TopScorers(options[..i], m) + (if options[i].votes == m then [options[i]] else [])
    ensures i + 1 == |options| ==> TopScorers(options[..i + 1], m) == TopScorers(options, m)
  {
    assert options[..i + 1] == options[..i] + [options[i]];
    TopScorersAppend(options[..i], options[i], m);
    if i + 1 == |options| {
      assert options[..i + 1] == options;
    }
  }

  /** A vote count that bounds every option and is attained by one is the maximum. */
  lemma MaxVotesIsAttainedBound(options: seq<Option>, m: int, top: nat)
    requires top < |options| && options[top].votes == m
    requires forall j | 0 <= j < |options| :: options[j].votes <= m
    ensures MaxVotes(options) == m
  {
    var j :| 0 <= j < |options| && options[j].votes == MaxVotes(options);
    assert options[top].votes <= MaxVotes(options);
  }

  /** Winners keep the relative order they have among the options. */
  lemma {:induction false} TopScorersPreservesOrder(options: seq<Option>, m: int)
    ensures IsSubsequence(TopScorers(options, m), options)
  {
    if options != [] {
      TopScorersPreservesOrder(options[1..], m);
      var rest := TopScorers(options[1..], m);
      if options[0].votes == m {
        assert TopScorers(options, m) == [options[0]] + rest;
        assert ([options[0]] + rest)[1..] == rest;
      } else {
        assert TopScorers(options, m) == rest;
        TopScorersMembers(options[1..], m);
        assert rest != [] ==> rest[0] in rest && rest[0].votes == m;
      }
    }
  }

  /** Each option with `m` votes is returned exactly as often as it occurs; no other option is returned. */
  lemma {:induction false} TopScorersMultiplicity(options: seq<Option>, m: int, o: Option)
    ensures multiset(TopScorers(options, m))[o] == if o.votes == m then multiset(options)[o] else 0
  {
    if options != [] {
      TopScorersMultiplicity(options[1..], m, o);
      assert options == [options[0]] + options[1..];
      assert multiset(options) == multiset([options[0]]) + multiset(options[1..]);
    }
  }

  /** The winner rule: empty exactly when there is no option or no positive vote; otherwise the winners are the options with the top count. */
  lemma WinnersCharacterization(options: seq<Option>)
    ensures Winners(options) == [] <==> options == [] || !AnyPositive(options)
    ensures forall w, o | w in Winners(options) && o in options :: w in options && o.votes <= w.votes
    ensures forall o | o in options && o.votes > 0 && (forall p | p in options :: p.votes <= o.votes) :: o in Winners(options)
    ensures IsSubsequence(Winners(options), options)
    ensures forall o :: multiset(Winners(options))[o] <= multiset(options)[o]
  {
    if options != [] && AnyPositive(options) {
      var m := MaxVotes(options);
      TopScorersMembers(options, m);
      var i :| 0 <= i < |options| && options[i].votes == m;
      assert options[i] in TopScorers(options, m);
      forall w, o | w in Winners(options) && o in options
        ensures w in options && o.votes <= w.votes
      {
        var j :| 0 <= j < |options| && options[j] == o;
      }
      forall o | o in options && o.votes > 0 && (forall p | p in options :: p.votes <= o.votes)
        ensures o in Winners(options)
      {
        assert options[i] in options;
      }
      TopScorersPreservesOrder(options, m);
      forall o ensures multiset(Winners(options))[o] <= multiset(options)[o] {
        TopScorersMultiplicity(options, m, o);
      }
    } else {
      assert IsSubsequence([], options);
    }
  }

  /** Worked examples: all-zero votes give no winner; a tie at the top gives every tied option. */
  lemma WinnersExamples(a: Option, b: Option, c: Option)
    requires a.votes == 3 && b.votes == 5 && c.votes == 5
    ensures Winners([a.(votes := 0), b.(votes := 0)]) == []
    ensures Winners([a, b, c]) == [b, c]
    ensures Winners([]) == []
  {
    assert AnyPositive([a, b, c]) by { assert [a, b, c][1].votes > 0; }
    assert MaxVotes([a, b, c]) == 5 by {
      assert [a, b, c][1..] == [b, c];
      assert [b, c][1..] == [c];
    }
    assert TopScorers([a, b, c], 5) == [b, c] by {
      assert [c][1..] == [];
      assert TopScorers([c], 5) == [c];
      assert [b, c][1..] == [c];
      assert TopScorers([b, c], 5) == [b, c];
      assert [a, b, c][1..] == [b, c];
    }
  }

  /** The source's two-pass loop: find "all zero" and the maximum, then collect the options at the maximum. */
  method WinningOptions(q: Question) returns (winners: seq<Option>)
    ensures winners == Winners(q.options)
  {
    var options := q.options;
    if |options| == 0 {
      return [];
    }
    var allZero := true;
    var maxVotes := options[0].votes;
    ghost var top, positive := 0, 0;
    for i := 0 to |options|
      invariant 0 <= top < |options| && options[top].votes == maxVotes
      invariant forall j | 0 <= j < i :: options[j].votes <= maxVotes
      invariant allZero ==> forall j | 0 <= j < i :: options[j].votes <= 0
      invariant !allZero ==> 0 <= positive < |options| && options[positive].votes > 0
    {
      if options[i].votes > 0 {
        allZero := false;
        positive := i;
      }
      if options[i].votes > maxVotes {
        maxVotes := options[i].votes;
        top := i;
      }
    }
    if allZero {
      return [];
    }
    assert AnyPositive(options);
    MaxVotesIsAttainedBound(options, maxVotes, top);
    winners := [];
    for i := 0 to |options|
      invariant winners == TopScorers(options[..i], maxVotes)
    {
      TopScorersOfLongerPrefix(options, i, maxVotes);
      if options[i].votes == maxVotes {
        winners := winners + [options[i]];
      }
    }
    TopScorersOfLongerPrefix(options, |options| - 1, maxVotes);
  }
}
