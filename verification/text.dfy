/** String helpers of the .NET base library that the handlers rely on:
    `string.IsNullOrWhiteSpace`, `string.Join` with a one-character separator,
    and the splitting a delimited-record reader performs. */
module Text {
  import opened Wrappers

  /** `char.IsWhiteSpace`: the Unicode space separators plus the control
      characters U+0009..U+000D, U+0085 and the line/paragraph separators. */
  predicate IsWhiteSpace(c: char) {
    || ('\U{9}' <= c <= '\U{D}')
    || c == ' ' || c == '\U{85}' || c == '\U{A0}' || c == '\U{1680}'
    || ('\U{2000}' <= c <= '\U{200A}')
    || c == '\U{2028}' || c == '\U{2029}' || c == '\U{202F}' || c == '\U{205F}' || c == '\U{3000}'
  }

  /** `string.IsNullOrWhiteSpace` on a nullable string. */
  predicate IsNullOrWhiteSpace(s: Option<string>) {
    s.None? || forall i :: 0 <= i < |s.value| ==> IsWhiteSpace(s.value[i])
  }

  /** C# string interpolation of a nullable string renders `null` as "". */
  function Show(s: Option<string>): string {
    if s.Some? then s.value else ""
  }

  /** `string.Join(sep, parts)` for a one-character separator. */
  function Join(sep: char, parts: seq<string>): (r: string)
    ensures |parts| == 1 ==> r == parts[0]
    decreases |parts|
  {
    if |parts| == 0 then ""
    else if |parts| == 1 then parts[0]
    else parts[0] + [sep] + Join(sep, parts[1..])
  }

  /** Splits `s` at every occurrence of `sep`; always yields at least one field. */
  function Split(sep: char, s: string): (parts: seq<string>)
    ensures |parts| > 0
    decreases |s|
  {
    if |s| == 0 then [""]
    else if s[0] == sep then [""] + Split(sep, s[1..])
    else
      var rest := Split(sep, s[1..]);
      [[s[0]] + rest[0]] + rest[1..]
  }

  /** A separator-free prefix glues onto the first field of what follows it. */
  lemma {:induction false} SplitPrefix(sep: char, a: string, b: string)
    requires sep !in a
    ensures Split(sep, a + b) == [a + Split(sep, b)[0]] + Split(sep, b)[1..]
    decreases |a|
  {
    if |a| > 0 {
      assert (a + b)[0] == a[0];
      assert (a + b)[1..] == a[1..] + b;
      SplitPrefix(sep, a[1..], b);
      assert [a[0]] + (a[1..] + Split(sep, b)[0]) == a + Split(sep, b)[0];
    } else {
      var parts := Split(sep, b);
      assert a + b == b;
      assert a + parts[0] == parts[0];
      assert parts == [parts[0]] + parts[1..];
    }
  }

  /** One field followed by the separator splits off exactly that field. */
  lemma SplitField(sep: char, a: string, b: string)
    requires sep !in a
    ensures Split(sep, a + [sep] + b) == [a] + Split(sep, b)
  {
    var tail := [sep] + b;
    SplitPrefix(sep, a, tail);
    assert a + [sep] + b == a + tail;
    assert tail[1..] == b;
    assert Split(sep, tail) == [""] + Split(sep, b);
    assert a + "" == a;
  }

  /** Splitting undoes joining when no field contains the separator. */
  lemma {:induction false} SplitJoin(sep: char, parts: seq<string>)
    requires |parts| > 0
    requires forall i :: 0 <= i < |parts| ==> sep !in parts[i]
    ensures Split(sep, Join(sep, parts)) == parts
    decreases |parts|
  {
    if |parts| == 1 {
      SplitPrefix(sep, parts[0], "");
      assert parts[0] + "" == parts[0];
    } else {
      SplitField(sep, parts[0], Join(sep, parts[1..]));
      SplitJoin(sep, parts[1..]);
    }
  }

  /** Joining undoes splitting, for every string. */
  lemma {:induction false} JoinSplit(sep: char, s: string)
    ensures Join(sep, Split(sep, s)) == s
    decreases |s|
  {
    if |s| > 0 {
      JoinSplit(sep, s[1..]);
      var rest := Split(sep, s[1..]);
      if s[0] == sep {
        assert Split(sep, s) == [""] + rest;
        assert s == [sep] + s[1..];
      } else {
        var parts := [[s[0]] + rest[0]] + rest[1..];
        assert parts[1..] == rest[1..];
        if |rest| == 1 {
          assert s == [s[0]] + s[1..];
        } else {
          assert Join(sep, rest) == rest[0] + [sep] + Join(sep, rest[1..]);
          assert s == [s[0]] + s[1..];
        }
      }
    }
  }

  /** Number of occurrences of `c` in `s`. */
  function CountChar(c: char, s: string): (n: nat)
    ensures n == 0 <==> c !in s
    ensures n <= |s|
    decreases |s|
  {
    if |s| == 0 then 0
    else (if s[0] == c then 1 else 0) + CountChar(c, s[1..])
  }
}
