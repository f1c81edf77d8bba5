/**
 * The stored form of each record: the attributes the marshaller writes for
 * it. Nested collections (an event's questions, a question's options) are
 * never part of an item.
 */
module Codec {
  import opened Models

  /** One item of the table. Each variant holds exactly the attributes of its record kind. */
  datatype Item =
    | EventItem(pk: string, sk: string, id: string, name: string, entityType: string)
    | QuestionItem(pk: string, sk: string, id: string, eventId: string, text: string, entityType: string)
    | OptionItem(pk: string, sk: string, id: string, questionId: string, text: string, votes: int, entityType: string)

  function EncodeEvent(e: Event): Item {
    EventItem(e.pk, e.sk, e.id, e.name, e.entityType)
  }

  function EncodeQuestion(q: Question): Item {
    QuestionItem(q.pk, q.sk, q.id, q.eventId, q.text, q.entityType)
  }

  function EncodeOption(o: Option): Item {
    OptionItem(o.pk, o.sk, o.id, o.questionId, o.text, o.votes, o.entityType)
  }

  /**
   * Unmarshalling matches attributes by name: an attribute the item lacks
   * leaves the zero value ("" or 0), and extra attributes are ignored.
   */
  function DecodeEvent(it: Item): (e: Event)
    ensures e.pk == it.pk && e.sk == it.sk && e.id == it.id && e.entityType == it.entityType
    ensures e.questions == []
    ensures it.EventItem? ==> EncodeEvent(e) == it
  {
    match it
    case EventItem(pk, sk, id, name, et) => Event(pk, sk, id, name, [], et)
    case QuestionItem(pk, sk, id, _, _, et) => Event(pk, sk, id, "", [], et)
    case OptionItem(pk, sk, id, _, _, _, et) => Event(pk, sk, id, "", [], et)
  }

  function DecodeQuestion(it: Item): (q: Question)
    ensures q.pk == it.pk && q.sk == it.sk && q.id == it.id && q.entityType == it.entityType
    ensures q.options == []
    ensures it.QuestionItem? ==> EncodeQuestion(q) == it
  {
    match it
    case EventItem(pk, sk, id, _, et) => Question(pk, sk, id, "", "", [], et)
    case QuestionItem(pk, sk, id, eventId, text, et) => Question(pk, sk, id, eventId, text, [], et)
    case OptionItem(pk, sk, id, _, text, _, et) => Question(pk, sk, id, "", text, [], et)
  }

  function DecodeOption(it: Item): (o: Option)
    ensures o.pk == it.pk && o.sk == it.sk && o.id == it.id && o.entityType == it.entityType
    ensures it.OptionItem? ==> EncodeOption(o) == it
  {
    match it
    case EventItem(pk, sk, id, _, et) => Option(pk, sk, id, "", "", 0, et)
    case QuestionItem(pk, sk, id, _, text, et) => Option(pk, sk, id, "", text, 0, et)
    case OptionItem(pk, sk, id, questionId, text, votes, et) => Option(pk, sk, id, questionId, text, votes, et)
  }

  /** Every scalar field survives encoding and decoding; only the nested collections are dropped. */
  lemma RoundTrips(e: Event, q: Question, o: Option)
    ensures DecodeEvent(EncodeEvent(e)) == e.(questions := [])
    ensures DecodeQuestion(EncodeQuestion(q)) == q.(options := [])
    ensures DecodeOption(EncodeOption(o)) == o
  {
  }
}
