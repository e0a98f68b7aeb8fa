/** A batch of events and its body: one serialized event per line, joined by
    `\n` in batch order. */
module Batch {
  import opened JsStrings

  /** A captured event. Only `event`, its name, is ever inspected; the rest is
      carried to the serializer untouched. */
  datatype Event = Event(
    event: string,
    distinctId: string,
    properties: map<string, string>,
    timestamp: string,
    uuid: string)

  /** The lines of a batch: `events.map((event) => JSON.stringify(event))`,
      with the serializer passed in. */
  function Lines(events: seq<Event>, stringify: Event -> string): seq<string> {
    seq(|events|, k requires 0 <= k < |events| => stringify(events[k]))
  }

  /** JSON text escapes every control character inside strings (section 7 of
      RFC 8259), so a serialized event never contains a raw line feed. */
  predicate SingleLine(events: seq<Event>, stringify: Event -> string) {
    forall k :: 0 <= k < |events| ==> '\n' !in stringify(events[k])
  }

  /** The body of a batch, before any compression. */
  function EncodeBody(events: seq<Event>, stringify: Event -> string): string {
    Join(Lines(events, stringify), "\n")
  }

  /** Splitting the body of a non-empty batch at line feeds recovers the
      serialized events, one per line, in batch order. */
  lemma BodyRoundTrip(events: seq<Event>, stringify: Event -> string)
    requires |events| > 0
    requires SingleLine(events, stringify)
    ensures Split(EncodeBody(events, stringify), '\n') == Lines(events, stringify)
  {
    SplitJoinRoundTrip(Lines(events, stringify), '\n');
  }

  /** A non-empty batch of n events has exactly n - 1 line feeds in its body. */
  lemma BodyLineFeeds(events: seq<Event>, stringify: Event -> string)
    requires |events| > 0
    requires SingleLine(events, stringify)
    ensures Count(EncodeBody(events, stringify), '\n') == |events| - 1
  {
    JoinCount(Lines(events, stringify), '\n');
  }

  /** A one-event batch is exactly that event's serialization, so a parser
      that reads the serialization back (`JSON.parse`) recovers the event from
      the whole body. */
  lemma SingleEventBody(events: seq<Event>, stringify: Event -> string, parse: string -> Event)
    requires |events| == 1
    requires parse(stringify(events[0])) == events[0]
    ensures EncodeBody(events, stringify) == stringify(events[0])
    ensures parse(EncodeBody(events, stringify)) == events[0]
  {
  }

  /** An empty batch encodes to the empty body. */
  lemma EmptyBatchBody(stringify: Event -> string)
    ensures EncodeBody([], stringify) == ""
  {
  }
}
