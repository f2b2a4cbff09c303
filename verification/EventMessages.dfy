/** The fields of a stream message and of a dead letter, and what they decode to. */
module EventMessages {
  import opened Options

  type Fields = map<string, string>

  /** Data is a JSON object, Time an instant; only their text forms matter here. */
  type Time = int
  type Data = map<string, string>

  datatype Event = Event(name: string, id: string, occurredAt: Option<Time>, data: Option<Data>)

  /** The platform's text forms of times and of JSON. */
  datatype Texts = Texts(
    printTime: Time -> string, parseTime: string -> Option<Time>,
    printData: Data -> string, parseData: string -> Option<Data>)

  ghost predicate Faithful(x: Texts) {
    && (forall t :: x.printTime(t) != "" && x.parseTime(x.printTime(t)) == Some(t))
    && (forall d :: x.printData(d) != "" && x.parseData(x.printData(d)) == Some(d))
  }

  const FIELD_ID := "id"
  const FIELD_NAME := "name"
  const FIELD_OCCURRED_AT := "occurred_at"
  const FIELD_DATA := "data"
  const FIELD_STREAM := "stream"
  const FIELD_MESSAGE_ID := "message_id"
  const FIELD_CONSUMER := "consumer"
  const FIELD_DELIVERIES := "deliveries"
  const FIELD_DROPPED_AT := "dropped_at"

  function StringField(f: Fields, key: string): string {
    if key in f then f[key] else ""
  }

  /** None is the decoding error. */
  function Decode(x: Texts, eventName: string, f: Fields): Option<Event> {
    if f == map[] then None
    else
      var name := StringField(f, FIELD_NAME);
      var at := StringField(f, FIELD_OCCURRED_AT);
      var data := StringField(f, FIELD_DATA);
      if at != "" && x.parseTime(at).None? then None
      else if data != "" && x.parseData(data).None? then None
      else Some(Event(
        if name != "" then name else eventName,
        StringField(f, FIELD_ID),
        if at == "" then None else x.parseTime(at),
        if data == "" then None else x.parseData(data)))
  }

  /** What a publication writes: the event after its empty fields were filled in. */
  function Encode(x: Texts, name: string, id: string, at: Time, data: Data): Fields {
    map[FIELD_ID := id, FIELD_NAME := name, FIELD_OCCURRED_AT := x.printTime(at), FIELD_DATA := x.printData(data)]
  }

  /** The four fields a dead letter and a redrive carry over; an absent one becomes "". */
  function EventFields(f: Fields): Fields {
    map[FIELD_ID := StringField(f, FIELD_ID), FIELD_NAME := StringField(f, FIELD_NAME),
        FIELD_OCCURRED_AT := StringField(f, FIELD_OCCURRED_AT), FIELD_DATA := StringField(f, FIELD_DATA)]
  }

  function Kept(stream: string, id: string, consumer: string, deliveries: string, droppedAt: string, f: Fields): Fields {
    map[FIELD_STREAM := stream, FIELD_MESSAGE_ID := id, FIELD_CONSUMER := consumer,
        FIELD_DELIVERIES := deliveries, FIELD_DROPPED_AT := droppedAt] + EventFields(f)
  }

  datatype Redriven = NoStream | Back(stream: string, fields: Fields)

  function Redrive(letter: Fields): Redriven {
    var stream := StringField(letter, FIELD_STREAM);
    if stream == "" then NoStream else Back(stream, EventFields(letter))
  }

  /** No field of an event's own is among the ones a letter adds. */
  lemma FieldsApart()
    ensures {FIELD_STREAM, FIELD_MESSAGE_ID, FIELD_CONSUMER, FIELD_DELIVERIES, FIELD_DROPPED_AT}
            !! {FIELD_ID, FIELD_NAME, FIELD_OCCURRED_AT, FIELD_DATA}
    ensures FIELD_ID != FIELD_NAME && FIELD_NAME != FIELD_OCCURRED_AT && FIELD_OCCURRED_AT != FIELD_DATA
    ensures FIELD_ID != FIELD_OCCURRED_AT && FIELD_ID != FIELD_DATA && FIELD_NAME != FIELD_DATA
  {
    assert |FIELD_ID| == 2 && |FIELD_NAME| == 4 && |FIELD_DATA| == 4 && |FIELD_OCCURRED_AT| == 11;
    assert |FIELD_STREAM| == 6 && |FIELD_MESSAGE_ID| == 10 && |FIELD_CONSUMER| == 8;
    assert |FIELD_DELIVERIES| == 10 && |FIELD_DROPPED_AT| == 10;
    assert FIELD_NAME[0] != FIELD_DATA[0];
  }

  /** A letter put back goes to its stream and decodes as the message it was made from,
      fault or event. An entry of a stream always has a field: XADD demands one. */
  lemma RedriveDecodesTheSame(x: Texts, eventName: string, f: Fields, stream: string,
                              id: string, consumer: string, deliveries: string, droppedAt: string)
    requires stream != "" && f != map[]
    ensures var back := Redrive(Kept(stream, id, consumer, deliveries, droppedAt, f));
            back.Back? && back.stream == stream && Decode(x, eventName, back.fields) == Decode(x, eventName, f)
  {
    FieldsApart();
    var letter := Kept(stream, id, consumer, deliveries, droppedAt, f);
    assert letter[FIELD_STREAM] == stream;
    assert EventFields(letter) == EventFields(f);
    assert FIELD_ID in EventFields(f) && EventFields(f) != map[];
  }

  /** Publish, keep, redrive: what arrives is the event that was published. */
  lemma PublishedEventSurvivesRedrive(x: Texts, name: string, id: string, at: Time, data: Data,
                                      stream: string, entry: string, consumer: string, deliveries: string,
                                      droppedAt: string, eventName: string)
    requires Faithful(x) && name != "" && stream != ""
    ensures var f := Encode(x, name, id, at, data);
            && Decode(x, eventName, f) == Some(Event(name, id, Some(at), Some(data)))
            && Redrive(Kept(stream, entry, consumer, deliveries, droppedAt, f)).Back?
            && Decode(x, eventName, Redrive(Kept(stream, entry, consumer, deliveries, droppedAt, f)).fields)
               == Decode(x, eventName, f)
  {
    FieldsApart();
    var f := Encode(x, name, id, at, data);
    assert FIELD_ID in f && f != map[];
    RedriveDecodesTheSame(x, eventName, f, stream, entry, consumer, deliveries, droppedAt);
  }

  function StreamName(prefix: string, eventName: string): string {
    prefix + ":" + eventName
  }

  function DeadLetterStream(prefix: string): string {
    prefix + "-" + "dead-letters"
  }

  /** No event name lands on the pile, and two names never share a stream. */
  lemma StreamsApart(prefix: string, a: string, b: string)
    ensures StreamName(prefix, a) != DeadLetterStream(prefix)
    ensures StreamName(prefix, a) == StreamName(prefix, b) ==> a == b
  {
    assert StreamName(prefix, a)[|prefix|] != DeadLetterStream(prefix)[|prefix|];
    assert StreamName(prefix, a)[|prefix| + 1..] == a && StreamName(prefix, b)[|prefix| + 1..] == b;
  }
}
