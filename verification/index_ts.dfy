/** The TypeScript variant of the exporter: `setupPlugin` checks the
    credentials and builds the S3 client; `exportEvents` turns one batch into
    the bucket, key and (optionally compressed) body of one object. The clock,
    the random source, the serializer and the compressors are parameters. */
module IndexTs {
  import opened Wrappers
  import opened JsStrings
  import opened PluginConfig
  import opened Batch
  import opened ObjectKey
  import opened Upload
  import Hex

  /** `randomBytes(8)`: the key suffix is the hex of this many bytes. */
  const SuffixBytes: nat := 8

  /** The message `setupPlugin` throws for each missing field. */
  function Message(f: Field): string {
    match f
    case AccessKey => "AWS access key missing!"
    case SecretAccessKey => "AWS secret access key missing!"
    case Region => "AWS region missing!"
    case BucketName => "S3 bucket name missing!"
  }

  /** `setupPlugin`: fails with the message of the first missing required
      field, in the order access key, secret, region, bucket; otherwise
      builds the client from the three credentials. */
  function SetupPlugin(cfg: Config): (r: Result<S3Client, string>)
    ensures r.Success? <==> AllRequiredPresent(cfg)
    ensures forall f :: IsFirstMissing(cfg, f) ==> r == Failure(Message(f))
    ensures r.Success? ==>
      r.value == S3Client(cfg.awsAccessKey.value, cfg.awsSecretAccessKey.value, cfg.awsRegion.value)
  {
    match FirstMissing(cfg)
    case Some(f) =>
      assert forall g :: IsFirstMissing(cfg, g) ==> g == f by {
        forall g | IsFirstMissing(cfg, g) ensures g == f { FirstMissingUnique(cfg, f, g); }
      }
      Failure(Message(f))
    case None => Success(S3Client(cfg.awsAccessKey.value, cfg.awsSecretAccessKey.value, cfg.awsRegion.value))
  }

  /** `${day.split('-').join('')}-${time.split(':').join('')}`: the day with
      its dashes removed, a dash, and the time with its colons removed. */
  function DayTime(date: string): (r: string)
    requires 'T' in date
    ensures r == Without(SplitDate(date).0, '-') + "-" + Without(SplitDate(date).1, ':')
  {
    var (day, time) := SplitDate(date);
    SplitJoinEmptyDeletes(day, '-');
    SplitJoinEmptyDeletes(time, ':');
    Join(Split(day, '-'), "") + "-" + Join(Split(time, ':'), "")
  }

  /** The extension a compression mode adds after `.jsonl`; any other
      setting, including `'no compression'` and an unset one, adds none. */
  function Extension(compression: Option<string>): string {
    if compression == Some("gzip") then ".gz"
    else if compression == Some("brotli") then ".br"
    else ""
  }

  /** `exportEvents` up to the upload call: the bucket is the configured one,
      the key is `<prefix><day>/<dayTime>-<hex of 8 random bytes>.jsonl`
      followed by the compression extension, and the body is the batch's
      line-per-event text, compressed once at most. */
  function ExportEvents(events: seq<Event>, cfg: Config, date: string, random: seq<Hex.byte>,
                        stringify: Event -> string): (p: UploadParams)
    requires AllRequiredPresent(cfg)
    requires 'T' in date
    requires |random| == SuffixBytes
    ensures p.bucket == cfg.s3BucketName.value
    ensures p.key == Key(Prefix(cfg.prefix), SplitDate(date).0, DayTime(date), Hex.Encode(random))
                     + Extension(cfg.compression)
    ensures Decompress(p.body) == EncodeBody(events, stringify)
    ensures Layers(p.body) <= 1
    ensures Layers(p.body) == 1 <==> Extension(cfg.compression) != ""
    ensures p.body.Gzip? <==> cfg.compression == Some("gzip")
    ensures p.body.Brotli? <==> cfg.compression == Some("brotli")
  {
    var (day, time) := SplitDate(date);
    var dayTime := DayTime(date);
    var suffix := Hex.Encode(random);
    var params := UploadParams(cfg.s3BucketName.value, Key(Prefix(cfg.prefix), day, dayTime, suffix),
                               Utf8(EncodeBody(events, stringify)));
    var params := if cfg.compression == Some("gzip")
                  then params.(key := params.key + ".gz", body := Gzip(params.body))
                  else params;
    var params := if cfg.compression == Some("brotli")
                  then params.(key := params.key + ".br", body := Brotli(params.body))
                  else params;
    params
  }

  /** The key is the prefix (or nothing), the day, `/`, the dash-free day
      and colon-free time, `-`, sixteen lower-case hex digits, `.jsonl`, and
      the compression extension. */
  lemma ExportKeyLayout(events: seq<Event>, cfg: Config, date: string, random: seq<Hex.byte>,
                        stringify: Event -> string)
    requires AllRequiredPresent(cfg)
    requires 'T' in date
    requires |random| == SuffixBytes
    ensures var key := ExportEvents(events, cfg, date, random, stringify).key;
            var day := SplitDate(date).0;
            var suffix := Hex.Encode(random);
            && StartsWith(key, Prefix(cfg.prefix) + day + "/")
            && key == Prefix(cfg.prefix) + day + "/" + DayTime(date) + "-" + suffix + ".jsonl" + Extension(cfg.compression)
            && |suffix| == 16
            && (forall k :: 0 <= k < |suffix| ==> Hex.IsHexDigit(suffix[k]))
  {
    var day := SplitDate(date).0;
    var key := ExportEvents(events, cfg, date, random, stringify).key;
    var stem := Key(Prefix(cfg.prefix), day, DayTime(date), Hex.Encode(random));
    KeyStartsWithDay(Prefix(cfg.prefix), day, DayTime(date), Hex.Encode(random));
    assert key == stem + Extension(cfg.compression);
    assert key[..|Prefix(cfg.prefix) + day + "/"|] == stem[..|Prefix(cfg.prefix) + day + "/"|];
  }

  /** The key ends in `.jsonl.gz` exactly under gzip, in `.jsonl.br` exactly
      under brotli, and in plain `.jsonl` exactly when neither is selected. */
  lemma ExportKeyExtension(events: seq<Event>, cfg: Config, date: string, random: seq<Hex.byte>,
                           stringify: Event -> string)
    requires AllRequiredPresent(cfg)
    requires 'T' in date
    requires |random| == SuffixBytes
    ensures var key := ExportEvents(events, cfg, date, random, stringify).key;
            && (EndsWith(key, ".jsonl.gz") <==> cfg.compression == Some("gzip"))
            && (EndsWith(key, ".jsonl.br") <==> cfg.compression == Some("brotli"))
            && (EndsWith(key, ".jsonl") <==> cfg.compression != Some("gzip") && cfg.compression != Some("brotli"))
  {
    var stem := Stem(Prefix(cfg.prefix), SplitDate(date).0, DayTime(date), Hex.Encode(random));
    assert ExportEvents(events, cfg, date, random, stringify).key == stem + ".jsonl" + Extension(cfg.compression);
    KeyEnding(stem, Extension(cfg.compression));
  }

  /** Which of the three endings a key built from `stem` and a compression
      extension carries. */
  lemma KeyEnding(stem: string, ext: string)
    requires ext == "" || ext == ".gz" || ext == ".br"
    ensures EndsWith(stem + ".jsonl" + ext, ".jsonl.gz") <==> ext == ".gz"
    ensures EndsWith(stem + ".jsonl" + ext, ".jsonl.br") <==> ext == ".br"
    ensures EndsWith(stem + ".jsonl" + ext, ".jsonl") <==> ext == ""
  {
    var key := stem + ".jsonl" + ext;
    assert key[|key| - 1] == (if ext == "" then 'l' else ext[2]);
    if ext != "" {
      assert key[|key| - 9..] == ".jsonl" + ext;
    } else {
      assert key[|key| - 6..] == ".jsonl";
    }
  }

  /** Choosing a compression changes only the extension and the encoding of
      the body: the bucket, the key before the extension, and the text a
      reader decompresses are those of the uncompressed upload. */
  lemma CompressionOnlyChangesExtensionAndBody(events: seq<Event>, cfg: Config, date: string,
                                               random: seq<Hex.byte>, stringify: Event -> string)
    requires AllRequiredPresent(cfg)
    requires 'T' in date
    requires |random| == SuffixBytes
    ensures var plain := ExportEvents(events, cfg.(compression := Some("no compression")), date, random, stringify);
            var p := ExportEvents(events, cfg, date, random, stringify);
            && p.bucket == plain.bucket
            && p.key == plain.key + Extension(cfg.compression)
            && Decompress(p.body) == Decompress(plain.body)
            && plain.body == Utf8(EncodeBody(events, stringify))
  {
    assert Extension(Some("no compression")) == "";
  }

  /** Splitting the decompressed body of a non-empty batch at line feeds
      gives back the serialized events in order, with one line feed between
      neighbours. */
  lemma ExportBodyRoundTrip(events: seq<Event>, cfg: Config, date: string, random: seq<Hex.byte>,
                            stringify: Event -> string)
    requires AllRequiredPresent(cfg)
    requires 'T' in date
    requires |random| == SuffixBytes
    requires |events| > 0
    requires SingleLine(events, stringify)
    ensures var text := Decompress(ExportEvents(events, cfg, date, random, stringify).body);
            && Split(text, '\n') == Lines(events, stringify)
            && Count(text, '\n') == |events| - 1
  {
    BodyRoundTrip(events, stringify);
    BodyLineFeeds(events, stringify);
  }

  /** Two exports of the same batch at the same instant differ in their key
      whenever the random bytes differ. */
  lemma ExportKeysDistinct(events: seq<Event>, cfg: Config, date: string, a: seq<Hex.byte>,
                           b: seq<Hex.byte>, stringify: Event -> string)
    requires AllRequiredPresent(cfg)
    requires 'T' in date
    requires |a| == SuffixBytes && |b| == SuffixBytes
    requires a != b
    ensures ExportEvents(events, cfg, date, a, stringify).key != ExportEvents(events, cfg, date, b, stringify).key
  {
    var prefix, day := Prefix(cfg.prefix), SplitDate(date).0;
    var ka := Key(prefix, day, DayTime(date), Hex.Encode(a));
    var kb := Key(prefix, day, DayTime(date), Hex.Encode(b));
    var ext := Extension(cfg.compression);
    if ka + ext == kb + ext {
      assert ka == (ka + ext)[..|ka|];
      KeyDeterminesRandom(prefix, day, DayTime(date), a, b);
    }
  }

  /** For a timestamp from `toISOString`, `dayTime` is `YYYYMMDD-HHmmss.sssZ`:
      twenty characters, the milliseconds' dot and the `Z` kept. */
  lemma IsoDayTime(s: string)
    requires IsIsoTimestamp(s)
    ensures 'T' in s
    ensures DayTime(s) == s[..4] + s[5..7] + s[8..10] + "-" + s[11..13] + s[14..16] + s[17..]
    ensures |DayTime(s)| == 20
  {
    IsoSplitDate(s);
    IsoDayWithoutDashes(s);
    IsoTimeWithoutColons(s);
    Regroup(s[..4], s[5..7], s[8..10], "-", s[11..13], s[14..16], s[17..]);
  }

  lemma Regroup(a: string, b: string, c: string, d: string, e: string, f: string, g: string)
    ensures (a + b + c) + d + (e + f + g) == a + b + c + d + e + f + g
  {
  }

  /** For a timestamp from `toISOString`, `dayTime` contains no colon. */
  lemma IsoDayTimeHasNoColon(s: string)
    requires IsIsoTimestamp(s)
    ensures 'T' in s
    ensures ':' !in DayTime(s)
  {
    IsoSplitDate(s);
    IsoDayWithoutDashes(s);
    var day := Without(s[..10], '-');
    var time := Without(s[11..], ':');
    assert DayTime(s) == day + "-" + time;
    assert multiset(day + "-" + time) == multiset(day) + multiset("-") + multiset(time);
  }

  lemma IsoDayWithoutDashes(s: string)
    requires IsIsoTimestamp(s)
    ensures Without(s[..10], '-') == s[..4] + s[5..7] + s[8..10]
    ensures ':' !in s[..4] + s[5..7] + s[8..10]
  {
    var a, b, d := s[..4], s[5..7], s[8..10];
    assert s[..10] == a + ['-'] + b + ['-'] + d;
    var digits := a + b + d;
    assert forall k :: 0 <= k < 8 ==> IsDigit(digits[k]) by {
      assert forall k :: 0 <= k < 4 ==> digits[k] == s[k];
      assert digits[4] == s[5] && digits[5] == s[6] && digits[6] == s[8] && digits[7] == s[9];
    }
    NoDigitSeparator(a, '-');
    NoDigitSeparator(b, '-');
    NoDigitSeparator(d, '-');
    NoDigitSeparator(digits, ':');
    WithoutFields(a, b, d, '-');
  }

  lemma IsoTimeWithoutColons(s: string)
    requires IsIsoTimestamp(s)
    ensures Without(s[11..], ':') == s[11..13] + s[14..16] + s[17..]
  {
    var a, b, d := s[11..13], s[14..16], s[17..];
    assert s[11..] == a + [':'] + b + [':'] + d;
    assert ':' !in d by { forall k | 0 <= k < 7 ensures d[k] != ':' { assert d[k] == s[17 + k]; } }
    NoDigitSeparator(a, ':');
    NoDigitSeparator(b, ':');
    WithoutFields(a, b, d, ':');
  }

  lemma NoDigitSeparator(ds: string, c: char)
    requires forall k :: 0 <= k < |ds| ==> IsDigit(ds[k])
    requires c == '-' || c == ':'
    ensures c !in ds
  {
  }

  lemma WithoutFields(a: string, b: string, d: string, c: char)
    requires c !in a && c !in b && c !in d
    ensures Without(a + [c] + b + [c] + d, c) == a + b + d
  {
    var tail := b + [c] + d;
    RegroupFields(a, b, d, c);
    WithoutSeparator(a, tail, c);
    WithoutAbsent(d, c);
    WithoutSeparator(b, d, c);
  }

  lemma RegroupFields(a: string, b: string, d: string, c: char)
    ensures a + [c] + b + [c] + d == a + [c] + (b + [c] + d)
    ensures a + (b + d) == a + b + d
  {
  }
}
