/** The string operations the source takes from Python's `str` and `os.path`. */
module Text {

  /** Number of occurrences of `c` in `s` (Python's `s.count(c)`). */
  function Count(s: string, c: char): (n: nat)
    ensures n == 0 <==> c !in s
  {
    if |s| == 0 then 0 else (if s[0] == c then 1 else 0) + Count(s[1..], c)
  }

  /** Python's `s.split(sep)` for a one-character separator: the fields between
      separators, always one more than there are separators. */
  function Split(s: string, sep: char): (r: seq<string>)
    ensures |r| == Count(s, sep) + 1
    ensures forall i :: 0 <= i < |r| ==> sep !in r[i]
  {
    if |s| == 0 then [""]
    else
      var rest := Split(s[1..], sep);
      if s[0] == sep then [""] + rest
      else [[s[0]] + rest[0]] + rest[1..]
  }

  /** Python's `sep.join(parts)`. */
  function Join(parts: seq<string>, sep: char): string
  {
    if |parts| == 0 then ""
    else if |parts| == 1 then parts[0]
    else parts[0] + [sep] + Join(parts[1..], sep)
  }

  /** Joining the fields of a split restores the string. */
  lemma {:induction false} JoinSplit(s: string, sep: char)
    ensures Join(Split(s, sep), sep) == s
  {
    if |s| > 0 {
      JoinSplit(s[1..], sep);
      var rest := Split(s[1..], sep);
      if s[0] == sep {
        assert ([""] + rest)[1..] == rest;
        assert s == [sep] + s[1..];
      } else {
        var parts := Split(s, sep);
        assert parts[1..] == rest[1..];
        if |rest| > 1 {
          assert Join(rest, sep) == rest[0] + [sep] + Join(rest[1..], sep);
        }
        assert s == [s[0]] + s[1..];
      }
    }
  }

  /** A first character other than the separator joins the first field. */
  lemma SplitCons(c: char, rest: string, sep: char)
    requires c != sep
    ensures var t := Split(rest, sep);
      Split([c] + rest, sep) == [[c] + t[0]] + t[1..]
  {
    assert ([c] + rest)[1..] == rest;
  }

  /** One step of SplitAfterPrefix: a leading non-separator joins the first
      field of the rest. */
  lemma SplitAfterPrefixStep(a: string, tail: string, sep: char, t: seq<string>)
    requires |a| > 0 && a[0] != sep && |t| > 0
    requires Split(a[1..] + tail, sep) == [a[1..] + t[0]] + t[1..]
    ensures Split(a + tail, sep) == [a + t[0]] + t[1..]
  {
    assert a + tail == [a[0]] + (a[1..] + tail);
    SplitCons(a[0], a[1..] + tail, sep);
    assert [a[0]] + (a[1..] + t[0]) == a + t[0];
  }

  /** Fields after a separator-free prefix: the prefix joins the first field. */
  lemma {:induction false} SplitAfterPrefix(a: string, tail: string, sep: char)
    requires sep !in a
    ensures var t := Split(tail, sep);
      Split(a + tail, sep) == [a + t[0]] + t[1..]
  {
    var t := Split(tail, sep);
    if |a| > 0 {
      assert sep !in a[1..];
      SplitAfterPrefix(a[1..], tail, sep);
      SplitAfterPrefixStep(a, tail, sep, t);
    } else {
      assert a + tail == tail;
      assert t == [t[0]] + t[1..];
      assert a + t[0] == t[0];
    }
  }

  /** Splitting a join restores the parts when no part contains the separator.
      (The empty list is the exception: it joins to "" which splits to [""].) */
  lemma {:induction false} SplitJoin(parts: seq<string>, sep: char)
    requires |parts| >= 1
    requires forall i :: 0 <= i < |parts| ==> sep !in parts[i]
    ensures Split(Join(parts, sep), sep) == parts
  {
    if |parts| == 1 {
      SplitAfterPrefix(parts[0], "", sep);
      assert Split("", sep) == [""];
      assert parts[0] + "" == parts[0];
    } else {
      var tail := Join(parts[1..], sep);
      SplitJoin(parts[1..], sep);
      assert Join(parts, sep) == parts[0] + ([sep] + tail);
      SplitAfterPrefix(parts[0], [sep] + tail, sep);
      assert ([sep] + tail)[0] == sep;
      assert ([sep] + tail)[1..] == tail;
      var t := Split([sep] + tail, sep);
      assert t == [""] + parts[1..];
      assert t[0] == "" && t[1..] == parts[1..];
      assert parts[0] + "" == parts[0];
      assert parts == [parts[0]] + parts[1..];
    }
  }

  /** The characters Python's `str.strip()` removes (`str.isspace`). */
  predicate IsSpace(c: char) {
    || c == ' ' || c == '\t' || c == '\n' || c == '\r'
    || c == '\U{000B}' || c == '\U{000C}'
    || ('\U{001C}' <= c <= '\U{001F}')
    || c == '\U{0085}' || c == '\U{00A0}' || c == '\U{1680}'
    || ('\U{2000}' <= c <= '\U{200A}')
    || c == '\U{2028}' || c == '\U{2029}' || c == '\U{202F}'
    || c == '\U{205F}' || c == '\U{3000}'
  }

  /** The number of whitespace characters `s` starts with. */
  function LeadingSpaces(s: string): (n: nat)
    ensures n <= |s|
    ensures forall j :: 0 <= j < n ==> IsSpace(s[j])
    ensures n < |s| ==> !IsSpace(s[n])
  {
    if |s| > 0 && IsSpace(s[0]) then
      var m := LeadingSpaces(s[1..]);
      assert forall j :: 1 <= j < m + 1 ==> s[j] == s[1..][j - 1];
      m + 1
    else 0
  }

  /** The number of whitespace characters `s` ends with. */
  function TrailingSpaces(s: string): (n: nat)
    ensures n <= |s|
    ensures forall j :: |s| - n <= j < |s| ==> IsSpace(s[j])
    ensures n < |s| ==> !IsSpace(s[|s| - n - 1])
  {
    if |s| > 0 && IsSpace(s[|s| - 1]) then
      var m := TrailingSpaces(s[..|s| - 1]);
      assert forall j :: |s| - 1 - m <= j < |s| - 1 ==> s[j] == s[..|s| - 1][j];
      m + 1
    else 0
  }

  /** `r` is `s` with the whitespace runs before position `i` and after
      `i + |r|` removed. */
  predicate TrimmedAt(s: string, r: string, i: int) {
    && 0 <= i && i + |r| <= |s| && r == s[i..i + |r|]
    && (forall j :: 0 <= j < i ==> IsSpace(s[j]))
    && (forall j :: i + |r| <= j < |s| ==> IsSpace(s[j]))
  }

  /** Python's `s.strip()`: the middle of `s` left after removing whitespace
      from both ends; a string already without surrounding whitespace is kept. */
  function Strip(s: string): (r: string)
    ensures |r| == 0 || (!IsSpace(r[0]) && !IsSpace(r[|r| - 1]))
    ensures |s| == 0 || (!IsSpace(s[0]) && !IsSpace(s[|s| - 1])) ==> r == s
  {
    var tail := s[LeadingSpaces(s)..];
    tail[..|tail| - TrailingSpaces(tail)]
  }

  /** Only whitespace is removed, and only from the two ends. */
  lemma StripTrims(s: string)
    ensures exists i :: TrimmedAt(s, Strip(s), i)
  {
    var i := LeadingSpaces(s);
    var tail := s[i..];
    var r := Strip(s);
    assert forall j :: i + |r| <= j < |s| ==> s[j] == tail[j - i];
    assert TrimmedAt(s, r, i);
  }

  /** Python's `sub in s` for strings. */
  predicate Contains(s: string, sub: string)
    decreases |s|
  {
    sub <= s || (|s| > 0 && Contains(s[1..], sub))
  }

  predicate OccursAt(s: string, sub: string, i: int) {
    0 <= i && i + |sub| <= |s| && s[i..i + |sub|] == sub
  }

  /** `Contains` holds exactly when `sub` occurs at some position of `s`. */
  lemma {:induction false} ContainsAt(s: string, sub: string)
    ensures Contains(s, sub) <==> exists i :: OccursAt(s, sub, i)
  {
    if sub <= s {
      assert OccursAt(s, sub, 0);
    } else if |s| > 0 {
      ContainsAt(s[1..], sub);
      if Contains(s[1..], sub) {
        var i :| OccursAt(s[1..], sub, i);
        assert s[1..][i..i + |sub|] == s[i + 1..i + 1 + |sub|];
        assert OccursAt(s, sub, i + 1);
      }
      if exists i :: OccursAt(s, sub, i) {
        var i :| OccursAt(s, sub, i);
        assert i != 0;
        assert s[1..][i - 1..i - 1 + |sub|] == s[i..i + |sub|];
        assert OccursAt(s[1..], sub, i - 1);
      }
    } else {
      assert |sub| > 0;
      assert forall i :: !OccursAt(s, sub, i);
    }
  }

  /** The position just after the last `sep` in `s`, or 0 when there is none. */
  function AfterLast(s: string, sep: char): (n: nat)
    ensures n <= |s|
    ensures forall j :: n <= j < |s| ==> s[j] != sep
    ensures n > 0 ==> s[n - 1] == sep
  {
    if |s| == 0 then 0
    else if s[|s| - 1] == sep then |s|
    else
      var n := AfterLast(s[..|s| - 1], sep);
      assert forall j :: n <= j < |s| - 1 ==> s[j] == s[..|s| - 1][j];
      n
  }

  /** The part of `path` after its last '/': Python's `path.split("/")[-1]`,
      which is also the tail `os.path.split(path)` returns. */
  function BaseName(path: string): (r: string)
    ensures '/' !in r
    ensures |r| <= |path| && r == path[|path| - |r|..]
    ensures |r| < |path| ==> path[|path| - |r| - 1] == '/'
  {
    var n := AfterLast(path, '/');
    var r := path[n..];
    assert forall j :: 0 <= j < |r| ==> r[j] == path[n + j];
    r
  }

  /** The base name of a path is the component after its last '/'. */
  lemma BaseNameAfterSlash(dir: string, name: string)
    requires '/' !in name
    ensures BaseName(dir + "/" + name) == name
  {
    var s := dir + "/" + name;
    var r := BaseName(s);
    assert s[|dir|] == '/';
    assert forall k :: |dir| < k < |s| ==> s[k] == name[k - |dir| - 1];
    assert s[|s| - |name|..] == name;
  }

  /** A name with no '/' is its own base name. */
  lemma BaseNameOfName(name: string)
    requires '/' !in name
    ensures BaseName(name) == name
  {
    assert name[|name| - |name|..] == name;
  }

  /** Python's `os.path.join(a, b)` on POSIX: an absolute `b` replaces `a`,
      otherwise a '/' is inserted unless `a` is empty or already ends in one. */
  function PathJoin(a: string, b: string): (r: string)
    ensures |b| <= |r| && r[|r| - |b|..] == b
    ensures (|b| == 0 || b[0] != '/') ==> a <= r
    ensures |b| > 0 && b[0] == '/' ==> r == b
    // At most one '/' is inserted between a relative `b` and `a`.
    ensures (|b| == 0 || b[0] != '/') ==> r == a + b || r == a + "/" + b
  {
    if |b| > 0 && b[0] == '/' then b
    else if |a| == 0 || a[|a| - 1] == '/' then a + b
    else a + "/" + b
  }
}
