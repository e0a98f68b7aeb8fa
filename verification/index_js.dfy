/** The JavaScript variant of the exporter: `setupPlugin` checks the
    credentials, computes the buffer's size and time limits and parses the
    ignore list; `processEvent` buffers every event not on that list; the
    buffer's `onFlush` turns a batch into the bucket, key and body of one
    object. The clock, the random source, the serializer and `parseInt` are
    parameters; when the buffer flushes is decided by a library outside this
    model. */
module IndexJs {
  import opened Wrappers
  import opened JsStrings
  import opened PluginConfig
  import opened Batch
  import opened ObjectKey
  import opened Upload
  import Hex

  /** `randomBytes(20)`: the key suffix is the hex of this many bytes. */
  const SuffixBytes: nat := 20

  const BytesPerMegabyte: int := 1024 * 1024
  const SecondsPerMinute: int := 60

  /** The message `setupPlugin` throws for each missing field. */
  function Message(f: Field): string {
    match f
    case AccessKey => "AWS Access Key missing"
    case SecretAccessKey => "AWS Secret Access Key missing"
    case Region => "AWS Region missing"
    case BucketName => "S3 bucket name missing"
  }

  /** The limits the buffer was created with, and `pending`: every event
      handed to `buffer.add` since setup. When `createBuffer` flushes and
      empties its buffer is not part of this model. */
  datatype Buffer = Buffer(limit: int, timeoutSeconds: int, pending: seq<Event>)

  /** What `setupPlugin` stores in `global`. */
  datatype PluginGlobal = PluginGlobal(s3: S3Client, buffer: Buffer, eventsToIgnore: set<string>)

  /** `parseInt(x) || 1`: the parsed number, unless parsing gave `NaN`
      (`None`) or zero, both of which are falsy. */
  function OrOne(parsed: Option<int>): (n: int)
    ensures n != 0
    ensures parsed.Some? && parsed.value != 0 ==> n == parsed.value
    ensures parsed.None? || parsed.value == 0 ==> n == 1
  {
    if parsed.None? || parsed.value == 0 then 1 else parsed.value
  }

  /** The buffer's byte limit: whole mebibytes, never zero, the configured
      count when it parses to a non-zero number and one mebibyte otherwise. */
  function BufferLimit(uploadMegabytes: Option<int>): (r: int)
    ensures r != 0 && r % BytesPerMegabyte == 0
    ensures uploadMegabytes.Some? && uploadMegabytes.value != 0 ==> r == uploadMegabytes.value * 1048576
    ensures uploadMegabytes.None? || uploadMegabytes.value == 0 ==> r == 1048576
  {
    OrOne(uploadMegabytes) * 1024 * 1024
  }

  /** The buffer's timeout: whole minutes in seconds, never zero, the
      configured count when it parses to a non-zero number and one minute
      otherwise. */
  function TimeoutSeconds(uploadMinutes: Option<int>): (r: int)
    ensures r != 0 && r % SecondsPerMinute == 0
    ensures uploadMinutes.Some? && uploadMinutes.value != 0 ==> r == uploadMinutes.value * 60
    ensures uploadMinutes.None? || uploadMinutes.value == 0 ==> r == 60
  {
    OrOne(uploadMinutes) * 60
  }

  /** The key set of `Object.fromEntries((config.eventsToIgnore || '')
      .split(',').map((event) => [event.trim(), true]))`. */
  function EventsToIgnore(eventsToIgnore: Option<string>): (r: set<string>)
    ensures forall name :: name in r ==> ',' !in name && IsTrimmed(name)
    ensures r != {}
  {
    var parts := Split(eventsToIgnore.GetOr(""), ',');
    var r := set k | 0 <= k < |parts| :: Trim(parts[k]);
    assert Trim(parts[0]) in r;
    forall name | name in r ensures ',' !in name {
      var k :| 0 <= k < |parts| && name == Trim(parts[k]);
      TrimKeepsAbsent(parts[k], ',');
    }
    r
  }

  /** An unset or empty list ignores exactly the empty name. */
  lemma EventsToIgnoreUnset(eventsToIgnore: Option<string>)
    requires eventsToIgnore.None? || eventsToIgnore == Some("")
    ensures EventsToIgnore(eventsToIgnore) == {""}
  {
    assert Split("", ',') == [""];
    assert Trim("") == "" by { TrimTrimmed(""); }
  }

  /** The ignore set is exactly the entries of the comma-separated list, each
      trimmed: writing comma-free entries out as such a list and parsing it
      gives back those entries with their outer white space removed, so
      `"a, b"` ignores `a` and `b`. */
  lemma EventsToIgnoreOfList(entries: seq<string>)
    requires |entries| > 0
    requires forall k :: 0 <= k < |entries| ==> ',' !in entries[k]
    ensures EventsToIgnore(Some(Join(entries, ","))) == set k | 0 <= k < |entries| :: Trim(entries[k])
  {
    SplitJoinRoundTrip(entries, ',');
  }

  /** Entries that are already trimmed are ignored under exactly their own names. */
  lemma EventsToIgnoreOfTrimmedList(names: seq<string>)
    requires |names| > 0
    requires forall k :: 0 <= k < |names| ==> ',' !in names[k] && IsTrimmed(names[k])
    ensures EventsToIgnore(Some(Join(names, ","))) == set k | 0 <= k < |names| :: names[k]
  {
    EventsToIgnoreOfList(names);
    forall k | 0 <= k < |names| ensures Trim(names[k]) == names[k] {
      TrimTrimmed(names[k]);
    }
  }

  /** `setupPlugin`: fails with the message of the first missing required
      field, in the order access key, secret, region, bucket; otherwise
      builds the client, an empty buffer with the computed limits, and the
      ignore set. */
  function SetupPlugin(cfg: Config, uploadMegabytes: Option<int>, uploadMinutes: Option<int>)
    : (r: Result<PluginGlobal, string>)
    ensures r.Success? <==> AllRequiredPresent(cfg)
    ensures forall f :: IsFirstMissing(cfg, f) ==> r == Failure(Message(f))
    ensures r.Success? ==>
      && r.value.s3 == S3Client(cfg.awsAccessKey.value, cfg.awsSecretAccessKey.value, cfg.awsRegion.value)
      && r.value.buffer.pending == []
      && r.value.buffer.limit == BufferLimit(uploadMegabytes)
      && r.value.buffer.timeoutSeconds == TimeoutSeconds(uploadMinutes)
      && r.value.eventsToIgnore == EventsToIgnore(cfg.eventsToIgnore)
  {
    match FirstMissing(cfg)
    case Some(f) =>
      assert forall g :: IsFirstMissing(cfg, g) ==> g == f by {
        forall g | IsFirstMissing(cfg, g) ensures g == f { FirstMissingUnique(cfg, f, g); }
      }
      Failure(Message(f))
    case None =>
      var s3 := S3Client(cfg.awsAccessKey.value, cfg.awsSecretAccessKey.value, cfg.awsRegion.value);
      var buffer := Buffer(BufferLimit(uploadMegabytes), TimeoutSeconds(uploadMinutes), []);
      Success(PluginGlobal(s3, buffer, EventsToIgnore(cfg.eventsToIgnore)))
  }

  /** Whether an event name is on the ignore list: an exact, case-sensitive
      match against one of the list's entries. */
  predicate IsIgnored(eventsToIgnore: set<string>, name: string) {
    name in eventsToIgnore
  }

  /** `processEvent`'s result: the event handed back and the updated global state. */
  datatype Processed = Processed(event: Event, global: PluginGlobal)

  /** `processEvent`: an event whose name is not ignored is appended to the
      pending batch, an ignored one leaves the buffer as it was; the client,
      limits and ignore set never change, and the event is returned as given. */
  function ProcessEvent(event: Event, global: PluginGlobal): (r: Processed)
    ensures r.event == event
    ensures r.global.s3 == global.s3 && r.global.eventsToIgnore == global.eventsToIgnore
    ensures r.global.buffer.limit == global.buffer.limit
    ensures r.global.buffer.timeoutSeconds == global.buffer.timeoutSeconds
    ensures !IsIgnored(global.eventsToIgnore, event.event) ==>
              r.global.buffer.pending == global.buffer.pending + [event]
    ensures IsIgnored(global.eventsToIgnore, event.event) ==> r.global == global
  {
    if !IsIgnored(global.eventsToIgnore, event.event) then
      Processed(event, global.(buffer := global.buffer.(pending := global.buffer.pending + [event])))
    else
      Processed(event, global)
  }

  /** The events a sequence of `processEvent` calls leaves in the buffer:
      those whose names are not ignored, in arrival order. */
  function Kept(eventsToIgnore: set<string>, events: seq<Event>): (r: seq<Event>)
    ensures |r| <= |events|
    ensures forall k :: 0 <= k < |r| ==> !IsIgnored(eventsToIgnore, r[k].event)
    ensures forall e :: e in events && !IsIgnored(eventsToIgnore, e.event) ==> e in r
    ensures forall e :: e in r ==> e in events
    ensures forall e :: multiset(r)[e] == if IsIgnored(eventsToIgnore, e.event) then 0 else multiset(events)[e]
  {
    if |events| == 0 then []
    else
      var init := events[..|events| - 1];
      var rest := Kept(eventsToIgnore, init);
      var last := events[|events| - 1];
      assert events == init + [last];
      KeptStep(eventsToIgnore, init, last, rest);
      if IsIgnored(eventsToIgnore, last.event) then rest else rest + [last]
  }

  /** The inductive step of `Kept`: appending one event keeps it exactly
      when its name is not ignored. */
  lemma KeptStep(eventsToIgnore: set<string>, init: seq<Event>, last: Event, rest: seq<Event>)
    requires |rest| <= |init|
    requires forall k :: 0 <= k < |rest| ==> !IsIgnored(eventsToIgnore, rest[k].event)
    requires forall e :: multiset(rest)[e] == if IsIgnored(eventsToIgnore, e.event) then 0 else multiset(init)[e]
    ensures var events := init + [last];
            var r := if IsIgnored(eventsToIgnore, last.event) then rest else rest + [last];
            && |r| <= |events|
            && (forall k :: 0 <= k < |r| ==> !IsIgnored(eventsToIgnore, r[k].event))
            && (forall e :: e in events && !IsIgnored(eventsToIgnore, e.event) ==> e in r)
            && (forall e :: e in r ==> e in events)
            && (forall e :: multiset(r)[e] == if IsIgnored(eventsToIgnore, e.event) then 0 else multiset(events)[e])
  {
    var events := init + [last];
    var r := if IsIgnored(eventsToIgnore, last.event) then rest else rest + [last];
    assert multiset(events) == multiset(init) + multiset{last};
    assert multiset(r) == if IsIgnored(eventsToIgnore, last.event) then multiset(rest) else multiset(rest) + multiset{last};
    forall e | e in events && !IsIgnored(eventsToIgnore, e.event) ensures e in r {
      assert e in multiset(events);
    }
    forall e | e in r ensures e in events {
      assert e in multiset(r);
    }
  }

  /** Keeping distributes over concatenation: the events kept from a
      sequence are those kept from its first part followed by those kept from
      the rest, so arrival order is preserved. */
  lemma {:induction false} KeptAppend(eventsToIgnore: set<string>, a: seq<Event>, b: seq<Event>)
    ensures Kept(eventsToIgnore, a + b) == Kept(eventsToIgnore, a) + Kept(eventsToIgnore, b)
    decreases |b|
  {
    if |b| == 0 {
      assert a + b == a;
    } else {
      var init := b[..|b| - 1];
      assert (a + b)[..|a + b| - 1] == a + init;
      assert (a + b)[|a + b| - 1] == b[|b| - 1];
      KeptAppend(eventsToIgnore, a, init);
    }
  }

  /** A single event is kept exactly when its name is not ignored. */
  lemma KeptSingle(eventsToIgnore: set<string>, e: Event)
    ensures Kept(eventsToIgnore, [e]) == if IsIgnored(eventsToIgnore, e.event) then [] else [e]
  {
    assert [e][..0] == [];
  }

  /** Feeding events one by one through `processEvent`. */
  function ProcessAll(events: seq<Event>, global: PluginGlobal): PluginGlobal {
    if |events| == 0 then global
    else ProcessEvent(events[|events| - 1], ProcessAll(events[..|events| - 1], global)).global
  }

  /** After any sequence of events, the buffer holds what it held before
      followed by exactly the non-ignored events in arrival order, and an
      ignored event never reaches a batch. */
  lemma {:induction false} ProcessAllKeepsNonIgnored(events: seq<Event>, global: PluginGlobal)
    ensures ProcessAll(events, global).buffer.pending == global.buffer.pending + Kept(global.eventsToIgnore, events)
    ensures ProcessAll(events, global).eventsToIgnore == global.eventsToIgnore
  {
    if |events| > 0 {
      ProcessAllKeepsNonIgnored(events[..|events| - 1], global);
    }
  }

  /** `onFlush` up to the upload call: the bucket is the configured one, the
      key is `<prefix><day>/<time>-<hex of 20 random bytes>.jsonl` with the
      time part's colons kept and no compression extension, and the body is
      the batch's line-per-event text. */
  function OnFlush(batch: seq<Event>, cfg: Config, date: string, random: seq<Hex.byte>,
                   stringify: Event -> string): (p: UploadParams)
    requires AllRequiredPresent(cfg)
    requires 'T' in date
    requires |random| == SuffixBytes
    ensures p.bucket == cfg.s3BucketName.value
    ensures StartsWith(p.key, Prefix(cfg.prefix) + SplitDate(date).0 + "/")
    ensures EndsWith(p.key, ".jsonl")
    ensures p.body == Utf8(EncodeBody(batch, stringify))
  {
    var (day, time) := SplitDate(date);
    var suffix := Hex.Encode(random);
    var key := Key(Prefix(cfg.prefix), day, time, suffix);
    KeyStartsWithDay(Prefix(cfg.prefix), day, time, suffix);
    UploadParams(cfg.s3BucketName.value, key, Utf8(EncodeBody(batch, stringify)))
  }

  /** The key is the prefix (or nothing), the day, `/`, the time part with
      its colons, `-`, forty lower-case hex digits and `.jsonl`. */
  lemma OnFlushKeyLayout(batch: seq<Event>, cfg: Config, date: string, random: seq<Hex.byte>,
                         stringify: Event -> string)
    requires AllRequiredPresent(cfg)
    requires 'T' in date
    requires |random| == SuffixBytes
    ensures var key := OnFlush(batch, cfg, date, random, stringify).key;
            var (day, time) := SplitDate(date);
            var suffix := Hex.Encode(random);
            && key == Prefix(cfg.prefix) + day + "/" + time + "-" + suffix + ".jsonl"
            && |suffix| == 40
            && (forall k :: 0 <= k < |suffix| ==> Hex.IsHexDigit(suffix[k]))
  {
  }

  /** Splitting the body of a non-empty batch at line feeds gives back the
      serialized events in order. */
  lemma OnFlushBodyRoundTrip(batch: seq<Event>, cfg: Config, date: string, random: seq<Hex.byte>,
                             stringify: Event -> string)
    requires AllRequiredPresent(cfg)
    requires 'T' in date
    requires |random| == SuffixBytes
    requires |batch| > 0
    requires SingleLine(batch, stringify)
    ensures var text := Decompress(OnFlush(batch, cfg, date, random, stringify).body);
            && Split(text, '\n') == Lines(batch, stringify)
            && Count(text, '\n') == |batch| - 1
  {
    BodyRoundTrip(batch, stringify);
    BodyLineFeeds(batch, stringify);
  }

  /** Two flushes at the same instant differ in their key whenever the random
      bytes differ. */
  lemma OnFlushKeysDistinct(batch: seq<Event>, cfg: Config, date: string, a: seq<Hex.byte>,
                            b: seq<Hex.byte>, stringify: Event -> string)
    requires AllRequiredPresent(cfg)
    requires 'T' in date
    requires |a| == SuffixBytes && |b| == SuffixBytes
    requires a != b
    ensures OnFlush(batch, cfg, date, a, stringify).key != OnFlush(batch, cfg, date, b, stringify).key
  {
    var (day, time) := SplitDate(date);
    if OnFlush(batch, cfg, date, a, stringify).key == OnFlush(batch, cfg, date, b, stringify).key {
      KeyDeterminesRandom(Prefix(cfg.prefix), day, time, a, b);
    }
  }

  /** The names `Object.prototype` supplies to every plain object. Looking one
      of them up on the ignore object yields an inherited method (or, for
      `__proto__`, the prototype itself), which is truthy. */
  const ObjectPrototypeNames: set<string> := {
    "constructor", "hasOwnProperty", "isPrototypeOf", "propertyIsEnumerable",
    "toLocaleString", "toString", "valueOf", "__proto__",
    "__defineGetter__", "__defineSetter__", "__lookupGetter__", "__lookupSetter__"
  }

  /** `!global.eventsToIgnore[event.event]` as written: a property lookup on
      a plain object, which is truthy for the listed names and also for every
      name the object inherits. */
  predicate IsIgnoredAsWritten(eventsToIgnore: set<string>, name: string) {
    name in eventsToIgnore || name in ObjectPrototypeNames
  }

  /** `processEvent` as written, with the inherited-name lookup. */
  function ProcessEventAsWritten(event: Event, global: PluginGlobal): (r: Processed)
    ensures r.event == event
    ensures r.global.s3 == global.s3 && r.global.eventsToIgnore == global.eventsToIgnore
    ensures r.global.buffer.limit == global.buffer.limit
    ensures r.global.buffer.timeoutSeconds == global.buffer.timeoutSeconds
    ensures !IsIgnoredAsWritten(global.eventsToIgnore, event.event) ==>
              r.global.buffer.pending == global.buffer.pending + [event]
    ensures IsIgnoredAsWritten(global.eventsToIgnore, event.event) ==> r.global == global
  {
    if !IsIgnoredAsWritten(global.eventsToIgnore, event.event) then
      Processed(event, global.(buffer := global.buffer.(pending := global.buffer.pending + [event])))
    else
      Processed(event, global)
  }

  /** With the default (unset) ignore list, an event named `constructor` is
      dropped by `processEvent` as written although it is not on the list,
      while the intended membership test buffers it. */
  lemma InheritedNameIsDropped(event: Event, global: PluginGlobal)
    requires global.eventsToIgnore == EventsToIgnore(None)
    requires event.event == "constructor"
    ensures ProcessEventAsWritten(event, global).global.buffer.pending == global.buffer.pending
    ensures ProcessEvent(event, global).global.buffer.pending == global.buffer.pending + [event]
  {
    EventsToIgnoreUnset(None);
    assert "constructor" != "";
  }

  /** Apart from the inherited names, the lookup as written agrees with the
      membership test. */
  lemma AsWrittenAgreesOffPrototype(eventsToIgnore: set<string>, name: string)
    requires name !in ObjectPrototypeNames
    ensures IsIgnoredAsWritten(eventsToIgnore, name) <==> IsIgnored(eventsToIgnore, name)
  {
  }
}
