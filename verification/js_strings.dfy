/** The JavaScript string operations the exporter relies on, for strings as
    sequences of characters: `split` on a one-character separator,
    `Array.prototype.join`, and `trim`. */
module JsStrings {

  /** Number of occurrences of `c` in `s`. */
  function Count(s: string, c: char): nat {
    multiset(s)[c]
  }

  /** Index of the first occurrence of `c` in `s` (`s.indexOf(c)` when it is found). */
  function IndexOf(s: string, c: char): (i: nat)
    requires c in s
    ensures i < |s| && s[i] == c
    ensures c !in s[..i]
  {
    if s[0] == c then 0
    else
      assert c in s[1..] by { var k :| 0 <= k < |s| && s[k] == c; assert s[1..][k - 1] == c; }
      var j := IndexOf(s[1..], c);
      assert s[..j + 1] == [s[0]] + s[1..][..j];
      j + 1
  }

  /** `parts.join(sep)`: the parts in order with `sep` between neighbours;
      the empty array joins to the empty string. */
  function Join(parts: seq<string>, sep: string): string {
    if |parts| == 0 then ""
    else if |parts| == 1 then parts[0]
    else parts[0] + sep + Join(parts[1..], sep)
  }

  /** `s.split(c)` for a one-character separator: the maximal runs between
      separators, so there is always one more part than there are separators
      and the parts joined back with `c` give `s` again. */
  function Split(s: string, c: char): (parts: seq<string>)
    ensures |parts| == Count(s, c) + 1
    ensures forall k :: 0 <= k < |parts| ==> c !in parts[k]
    ensures Join(parts, [c]) == s
    decreases |s|
  {
    if c !in s then
      assert multiset(s)[c] == 0;
      [s]
    else
      var i := IndexOf(s, c);
      var rest := Split(s[i + 1..], c);
      assert s == s[..i] + [c] + s[i + 1..];
      assert multiset(s) == multiset(s[..i]) + multiset([c]) + multiset(s[i + 1..]) by {
        calc {
          multiset(s);
          multiset(s[..i] + [c] + s[i + 1..]);
          multiset(s[..i] + [c]) + multiset(s[i + 1..]);
        }
      }
      assert multiset(s[..i])[c] == 0;
      var parts := [s[..i]] + rest;
      assert parts[1..] == rest;
      parts
  }

  /** `s` with every occurrence of `c` deleted. The result holds no `c` and is
      shorter by the number of `c`s; `WithoutAppend` shows it works piecewise. */
  function Without(s: string, c: char): (r: string)
    ensures c !in r
    ensures |r| == |s| - Count(s, c)
  {
    if |s| == 0 then ""
    else
      assert s == [s[0]] + s[1..];
      assert multiset(s) == multiset([s[0]]) + multiset(s[1..]);
      if s[0] == c then Without(s[1..], c)
      else
        var r := [s[0]] + Without(s[1..], c);
        assert multiset(r) == multiset([s[0]]) + multiset(Without(s[1..], c));
        r
  }

  lemma {:induction false} WithoutAppend(a: string, b: string, c: char)
    ensures Without(a + b, c) == Without(a, c) + Without(b, c)
  {
    if |a| == 0 {
      assert a + b == b;
    } else {
      assert (a + b)[1..] == a[1..] + b;
      WithoutAppend(a[1..], b, c);
    }
  }

  lemma {:induction false} WithoutAbsent(s: string, c: char)
    requires c !in s
    ensures Without(s, c) == s
  {
    if |s| > 0 {
      assert c !in s[1..] by { forall k | 0 <= k < |s[1..]| ensures s[1..][k] != c { assert s[1..][k] == s[k + 1]; } }
      WithoutAbsent(s[1..], c);
      assert s[0] != c;
      assert Without(s, c) == [s[0]] + s[1..];
      assert [s[0]] + s[1..] == s;
    }
  }

  /** `s.split(c).join('')` deletes every `c`: the idiom the exporter uses to
      strip separators from the date and time. */
  lemma {:induction false} SplitJoinEmptyDeletes(s: string, c: char)
    ensures Join(Split(s, c), "") == Without(s, c)
    decreases |s|
  {
    if c !in s {
      WithoutAbsent(s, c);
    } else {
      var i := IndexOf(s, c);
      var head, tail := s[..i], s[i + 1..];
      var rest := Split(tail, c);
      assert Split(s, c) == [head] + rest;
      assert Join([head] + rest, "") == head + Join(rest, "") by {
        assert ([head] + rest)[1..] == rest;
      }
      SplitJoinEmptyDeletes(tail, c);
      assert s == head + [c] + tail;
      WithoutSeparator(head, tail, c);
    }
  }

  lemma {:induction false} WithoutSeparator(head: string, tail: string, c: char)
    requires c !in head
    ensures Without(head + [c] + tail, c) == head + Without(tail, c)
  {
    var sepTail := [c] + tail;
    assert head + [c] + tail == head + sepTail;
    WithoutAppend(head, sepTail, c);
    WithoutAbsent(head, c);
    assert sepTail[0] == c && sepTail[1..] == tail;
    assert Without(sepTail, c) == Without(tail, c);
  }

  /** A join of two or more parts starts with the first part and the separator. */
  lemma {:induction false} JoinCons(parts: seq<string>, sep: string)
    requires |parts| >= 2
    ensures Join(parts, sep) == parts[0] + sep + Join(parts[1..], sep)
  {
  }

  lemma {:induction false} JoinStartsWithFirst(parts: seq<string>, sep: string)
    requires |parts| >= 1
    ensures |parts[0]| <= |Join(parts, sep)| && Join(parts, sep)[..|parts[0]|] == parts[0]
  {
    if |parts| >= 2 {
      assert Join(parts, sep) == parts[0] + (sep + Join(parts[1..], sep));
    }
  }

  /** In a join of three or more parts, the separator also follows the second part. */
  lemma JoinSecondSeparator(parts: seq<string>, sep: string)
    requires |parts| >= 3
    ensures Join(parts, sep) == parts[0] + sep + parts[1] + sep + Join(parts[2..], sep)
  {
    JoinCons(parts, sep);
    JoinCons(parts[1..], sep);
    assert parts[1..][1..] == parts[2..];
  }

  /** Splitting a joined list gives the list back, provided it is non-empty
      and no element contains the separator. */
  lemma {:induction false} SplitJoinRoundTrip(parts: seq<string>, c: char)
    requires |parts| > 0
    requires forall k :: 0 <= k < |parts| ==> c !in parts[k]
    ensures Split(Join(parts, [c]), c) == parts
  {
    if |parts| == 1 {
      assert Join(parts, [c]) == parts[0];
    } else {
      var tail := Join(parts[1..], [c]);
      var s := parts[0] + [c] + tail;
      assert Join(parts, [c]) == s;
      assert c in s by { assert s[|parts[0]|] == c; }
      var i := IndexOf(s, c);
      assert i == |parts[0]| by {
        assert forall k :: 0 <= k < |parts[0]| ==> s[k] == parts[0][k];
        assert forall k :: 0 <= k < i ==> s[..i][k] == s[k];
      }
      assert s[..i] == parts[0];
      assert s[i + 1..] == tail;
      SplitJoinRoundTrip(parts[1..], c);
      assert Split(s, c) == [parts[0]] + parts[1..];
    }
  }

  /** Joining a non-empty list of separator-free parts (each possibly empty)
      with a one-character separator inserts exactly one separator between
      each pair of neighbours. */
  lemma {:induction false} JoinCount(parts: seq<string>, c: char)
    requires |parts| > 0
    requires forall k :: 0 <= k < |parts| ==> c !in parts[k]
    ensures Count(Join(parts, [c]), c) == |parts| - 1
  {
    SplitJoinRoundTrip(parts, c);
  }

  /** White space and line terminators as `String.prototype.trim` removes
      them: the WhiteSpace and LineTerminator productions of ECMAScript
      (tab, vertical tab, form feed, space, no-break space, the byte-order mark,
      the other Unicode space separators, LF, CR, LS and PS). */
  predicate IsJsWhiteSpace(ch: char) {
    || ch == '\U{0009}' || ch == '\U{000B}' || ch == '\U{000C}' || ch == '\U{0020}'
    || ch == '\U{00A0}' || ch == '\U{FEFF}' || ch == '\U{1680}'
    || ('\U{2000}' <= ch <= '\U{200A}') || ch == '\U{202F}' || ch == '\U{205F}' || ch == '\U{3000}'
    || ch == '\U{000A}' || ch == '\U{000D}' || ch == '\U{2028}' || ch == '\U{2029}'
  }

  predicate AllWhiteSpace(s: string) {
    forall k :: 0 <= k < |s| ==> IsJsWhiteSpace(s[k])
  }

  /** Neither end of `s` is white space. */
  predicate IsTrimmed(s: string) {
    |s| == 0 || (!IsJsWhiteSpace(s[0]) && !IsJsWhiteSpace(s[|s| - 1]))
  }

  /** Length of the white-space run at the start of `s`. */
  function LeadingWhiteSpace(s: string): (n: nat)
    ensures n <= |s|
    ensures AllWhiteSpace(s[..n])
    ensures n < |s| ==> !IsJsWhiteSpace(s[n])
  {
    if |s| == 0 || !IsJsWhiteSpace(s[0]) then 0
    else
      var n := LeadingWhiteSpace(s[1..]);
      assert forall k :: 0 <= k < n ==> s[1..][..n][k] == s[..n + 1][k + 1];
      n + 1
  }

  /** Length of the white-space run at the end of `s`. */
  function TrailingWhiteSpace(s: string): (n: nat)
    ensures n <= |s|
    ensures AllWhiteSpace(s[|s| - n..])
    ensures n < |s| ==> !IsJsWhiteSpace(s[|s| - n - 1])
  {
    if |s| == 0 || !IsJsWhiteSpace(s[|s| - 1]) then 0
    else
      var init := s[..|s| - 1];
      var n := TrailingWhiteSpace(init);
      assert init[|init| - n..] + [s[|s| - 1]] == s[|s| - n - 1..];
      n + 1
  }

  /** `s.trim()`: `s` without its leading and trailing white space. The result
      is a contiguous slice of `s`, everything cut off on either side is white
      space, and the result itself starts and ends with a non-white-space
      character (or is empty). */
  function Trim(s: string): (r: string)
    ensures IsTrimmed(r)
    ensures exists i, j :: 0 <= i <= j <= |s| && r == s[i..j] && AllWhiteSpace(s[..i]) && AllWhiteSpace(s[j..])
  {
    var i := LeadingWhiteSpace(s);
    var rest := s[i..];
    var n := TrailingWhiteSpace(rest);
    assert rest[|rest| - n..] == s[|s| - n..];
    if i == |s| then "" else
    var r := s[i..|s| - n];
    assert s[i..][..|rest| - n] == r;
    r
  }

  /** Trimming only removes characters, so it introduces none. */
  lemma TrimKeepsAbsent(s: string, c: char)
    requires c !in s
    ensures c !in Trim(s)
  {
    var i, j :| 0 <= i <= j <= |s| && Trim(s) == s[i..j];
    assert forall m :: 0 <= m < j - i ==> s[i..j][m] == s[i + m];
  }

  /** Trimming is idempotent: an already trimmed string is left as it is. */
  lemma {:induction false} TrimTrimmed(s: string)
    requires IsTrimmed(s)
    ensures Trim(s) == s
  {
    assert LeadingWhiteSpace(s) == 0;
    if |s| > 0 {
      assert TrailingWhiteSpace(s[0..]) == 0 by { assert s[0..] == s; }
    }
  }

  lemma {:induction false} TrimIdempotent(s: string)
    ensures Trim(Trim(s)) == Trim(s)
  {
    TrimTrimmed(Trim(s));
  }
}
