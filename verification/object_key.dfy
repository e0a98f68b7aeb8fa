/** The parts of an object key both plugin variants share: the timestamp split
    at `T`, the optional prefix, and the layout
    `<prefix><day>/<time part>-<hex suffix>.jsonl`. */
module ObjectKey {
  import opened Wrappers
  import opened JsStrings
  import Hex

  predicate StartsWith(s: string, p: string) {
    |p| <= |s| && s[..|p|] == p
  }

  predicate EndsWith(s: string, q: string) {
    |q| <= |s| && s[|s| - |q|..] == q
  }

  /** `config.prefix || ''`. */
  function Prefix(prefix: Option<string>): string {
    prefix.GetOr("")
  }

  /** `const [day, time] = date.split('T')`: the text before the first `T`
      and the text after it up to the next `T`, if any (`SplitDateTimeEndsAtT`). */
  function SplitDate(date: string): (dt: (string, string))
    requires 'T' in date
    ensures 'T' !in dt.0 && 'T' !in dt.1
    ensures StartsWith(date, dt.0 + "T" + dt.1)
    ensures Count(date, 'T') == 1 ==> date == dt.0 + "T" + dt.1
  {
    var parts := Split(date, 'T');
    assert multiset(date)['T'] > 0;
    JoinCons(parts, "T");
    JoinStartsWithFirst(parts[1..], "T");
    assert parts[1..][0] == parts[1];
    assert |parts| == 2 ==> Join(parts[1..], "T") == parts[1];
    (parts[0], parts[1])
  }

  /** The time part runs to the end of the timestamp or stops at a `T`. */
  lemma SplitDateTimeEndsAtT(date: string)
    requires 'T' in date
    ensures var dt := SplitDate(date);
            |dt.0| + 1 + |dt.1| == |date| || date[|dt.0| + 1 + |dt.1|] == 'T'
  {
    var parts := Split(date, 'T');
    assert multiset(date)['T'] > 0;
    if |parts| >= 3 {
      JoinSecondSeparator(parts, "T");
    } else {
      JoinCons(parts, "T");
    }
  }

  /** The key before its extensions. */
  function Stem(prefix: string, day: string, timePart: string, suffix: string): string {
    prefix + day + "/" + timePart + "-" + suffix
  }

  function Key(prefix: string, day: string, timePart: string, suffix: string): string {
    Stem(prefix, day, timePart, suffix) + ".jsonl"
  }

  /** The key starts with the prefix and the day directory, so objects are
      partitioned by day under the prefix. */
  lemma KeyStartsWithDay(prefix: string, day: string, timePart: string, suffix: string)
    ensures StartsWith(Key(prefix, day, timePart, suffix), prefix + day + "/")
  {
    var k := Key(prefix, day, timePart, suffix);
    assert k == (prefix + day + "/") + (timePart + "-" + suffix + ".jsonl");
  }

  /** With the prefix, timestamp and time part fixed, the key determines the
      random bytes it was built from: distinct random bytes, distinct keys. */
  lemma KeyDeterminesRandom(prefix: string, day: string, timePart: string, a: seq<Hex.byte>, b: seq<Hex.byte>)
    requires Key(prefix, day, timePart, Hex.Encode(a)) == Key(prefix, day, timePart, Hex.Encode(b))
    ensures a == b
  {
    var lead := prefix + day + "/" + timePart + "-";
    var ka := Key(prefix, day, timePart, Hex.Encode(a));
    var kb := Key(prefix, day, timePart, Hex.Encode(b));
    assert ka == lead + Hex.Encode(a) + ".jsonl";
    assert kb == lead + Hex.Encode(b) + ".jsonl";
    assert |Hex.Encode(a)| == |Hex.Encode(b)| by { assert |ka| == |kb|; }
    assert Hex.Encode(a) == ka[|lead|..|lead| + 2 * |a|];
    assert Hex.Encode(b) == kb[|lead|..|lead| + 2 * |b|];
    Hex.EncodeInjective(a, b);
  }

  predicate IsDigit(ch: char) {
    '0' <= ch <= '9'
  }

  /** The shape of `Date.prototype.toISOString` for years 0000 to 9999:
      `YYYY-MM-DDTHH:mm:ss.sssZ`. */
  predicate IsIsoTimestamp(s: string) {
    && |s| == 24
    && s[4] == '-' && s[7] == '-' && s[10] == 'T' && s[13] == ':' && s[16] == ':' && s[19] == '.' && s[23] == 'Z'
    && (forall k :: 0 <= k < 4 ==> IsDigit(s[k]))
    && IsDigit(s[5]) && IsDigit(s[6]) && IsDigit(s[8]) && IsDigit(s[9])
    && IsDigit(s[11]) && IsDigit(s[12]) && IsDigit(s[14]) && IsDigit(s[15])
    && IsDigit(s[17]) && IsDigit(s[18])
    && IsDigit(s[20]) && IsDigit(s[21]) && IsDigit(s[22])
  }

  /** An ISO timestamp splits into its date (`YYYY-MM-DD`) and its time of day
      with milliseconds and zone designator (`HH:mm:ss.sssZ`). */
  lemma IsoSplitDate(s: string)
    requires IsIsoTimestamp(s)
    ensures 'T' in s
    ensures SplitDate(s) == (s[..10], s[11..])
  {
    assert s[10] == 'T';
    var day, time := s[..10], s[11..];
    assert 'T' !in day by { forall k | 0 <= k < 10 ensures day[k] != 'T' { assert day[k] == s[k]; } }
    assert 'T' !in time by { forall k | 0 <= k < 13 ensures time[k] != 'T' { assert time[k] == s[k + 11]; } }
    assert s == day + "T" + time;
    assert Count(s, 'T') == 1 by {
      assert multiset(s) == multiset(day) + multiset("T") + multiset(time);
    }
    var dt := SplitDate(s);
    SplitAtUnique(day, time, dt.0, dt.1, 'T');
  }

  /** A string with a single `c` splits around it in only one way. */
  lemma SplitAtUnique(x: string, y: string, u: string, v: string, c: char)
    requires x + [c] + y == u + [c] + v
    requires c !in x && c !in u
    ensures x == u && y == v
  {
    var s := x + [c] + y;
    assert s[|x|] == c && s[|u|] == c;
    assert forall k :: 0 <= k < |x| ==> s[k] == x[k];
    assert forall k :: 0 <= k < |u| ==> s[k] == u[k];
    assert |x| == |u|;
    assert x == s[..|x|] && u == s[..|u|];
    assert y == s[|x| + 1..] && v == s[|u| + 1..];
  }
}
