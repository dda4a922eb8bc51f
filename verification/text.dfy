/** The string primitives the script takes from Python: `str.split` with a
    one-character separator, `str.join`, `posixpath.basename`/`dirname`, and
    the ordering Python uses for `str` comparisons. */
module Text {

  const NUL: char := '\0'

  /** Python's `s.split(sep)`: the fields between occurrences of `sep`, always
      at least one (the empty string splits into `[""]`). */
  function Split(s: string, sep: char): (fields: seq<string>)
    ensures |fields| >= 1
    ensures forall i :: 0 <= i < |fields| ==> sep !in fields[i]
  {
    if |s| == 0 then [""]
    else
      var rest := Split(s[1..], sep);
      if s[0] == sep then [""] + rest
      else [[s[0]] + rest[0]] + rest[1..]
  }

  /** Python's `sep.join(fields)`. */
  function Join(fields: seq<string>, sep: string): string
  {
    if |fields| == 0 then ""
    else if |fields| == 1 then fields[0]
    else fields[0] + sep + Join(fields[1..], sep)
  }

  /** Splitting a text that starts with a separator-free field `a` yields `a`
      glued to the first field of the rest. */
  lemma {:induction false} SplitFreePrefix(a: string, tail: string, sep: char)
    requires sep !in a
    ensures Split(a + tail, sep) == [a + Split(tail, sep)[0]] + Split(tail, sep)[1..]
  {
    if |a| > 0 {
      assert (a + tail)[1..] == a[1..] + tail;
      SplitFreePrefix(a[1..], tail, sep);
      assert [a[0]] + (a[1..] + Split(tail, sep)[0]) == a + Split(tail, sep)[0];
    } else {
      assert a + tail == tail;
      assert a + Split(tail, sep)[0] == Split(tail, sep)[0];
      assert [Split(tail, sep)[0]] + Split(tail, sep)[1..] == Split(tail, sep);
    }
  }

  /** Splitting what `Join` built gives back the fields, provided none of them
      contains the separator. */
  lemma {:induction false} SplitJoin(fields: seq<string>, sep: char)
    requires |fields| >= 1
    requires forall i :: 0 <= i < |fields| ==> sep !in fields[i]
    ensures Split(Join(fields, [sep]), sep) == fields
  {
    if |fields| == 1 {
      SplitFreePrefix(fields[0], "", sep);
      assert fields[0] + "" == fields[0];
    } else {
      var rest := Join(fields[1..], [sep]);
      SplitJoin(fields[1..], sep);
      assert Join(fields, [sep]) == fields[0] + ([sep] + rest);
      SplitFreePrefix(fields[0], [sep] + rest, sep);
      assert ([sep] + rest)[1..] == rest;
      assert Split([sep] + rest, sep) == [""] + fields[1..];
      assert fields[0] + "" == fields[0];
      assert fields == [fields[0]] + fields[1..];
    }
  }

  /** Joining what `Split` cut gives back the text. */
  lemma {:induction false} JoinSplit(s: string, sep: char)
    ensures Join(Split(s, sep), [sep]) == s
  {
    if |s| > 0 {
      var rest := Split(s[1..], sep);
      JoinSplit(s[1..], sep);
      if s[0] == sep {
        assert ([""] + rest)[1..] == rest;
        assert s == [sep] + s[1..];
      } else {
        var fields := [[s[0]] + rest[0]] + rest[1..];
        assert fields[1..] == rest[1..];
        if |rest| == 1 {
          assert s == [s[0]] + s[1..];
        } else {
          assert Join(rest, [sep]) == rest[0] + [sep] + Join(rest[1..], [sep]);
          assert s == [s[0]] + s[1..];
        }
      }
    }
  }

  /** The first line of a text, as `text.split('\n')[0]`. */
  function FirstLine(text: string): (line: string)
    ensures '\n' !in line
    ensures line <= text
    ensures |line| < |text| ==> text[|line|] == '\n'
  {
    FirstLineIsPrefix(text);
    Split(text, '\n')[0]
  }

  lemma {:induction false} FirstLineIsPrefix(text: string)
    ensures Split(text, '\n')[0] <= text
    ensures |Split(text, '\n')[0]| < |text| ==> text[|Split(text, '\n')[0]|] == '\n'
  {
    if |text| > 0 {
      FirstLineIsPrefix(text[1..]);
    }
  }

  /** `s.rfind(c)`: the index of the last `c` in `s`, or -1. */
  function RFind(s: string, c: char): (i: int)
    ensures -1 <= i < |s|
    ensures 0 <= i ==> s[i] == c
    ensures forall k :: i < k < |s| ==> s[k] != c
  {
    if |s| == 0 then -1
    else if s[|s| - 1] == c then |s| - 1
    else RFind(s[..|s| - 1], c)
  }

  /** `s.rstrip(c)`: `s` without its trailing run of `c`. */
  function RStrip(s: string, c: char): (r: string)
    ensures r <= s
    ensures r == "" || r[|r| - 1] != c
    ensures forall k :: |r| <= k < |s| ==> s[k] == c
  {
    if |s| > 0 && s[|s| - 1] == c then RStrip(s[..|s| - 1], c) else s
  }

  predicate AllSlashes(s: string) {
    forall k :: 0 <= k < |s| ==> s[k] == '/'
  }

  /** `posixpath.basename`: what follows the last '/'. */
  function Basename(p: string): (b: string)
    ensures '/' !in b
    ensures |b| <= |p| && p[|p| - |b|..] == b
    ensures |b| < |p| ==> p[|p| - |b| - 1] == '/'
  {
    p[RFind(p, '/') + 1..]
  }

  /** `posixpath.dirname`: everything up to the last '/', with trailing
      slashes removed unless it consists of slashes only. */
  function Dirname(p: string): (d: string)
    ensures d <= p
    ensures var head := p[..RFind(p, '/') + 1];
            && (AllSlashes(head) ==> d == head)
            && (!AllSlashes(head) ==> && d != "" && d[|d| - 1] != '/' && d <= head
                                      && forall k :: |d| <= k < |head| ==> head[k] == '/')
  {
    var head := p[..RFind(p, '/') + 1];
    if head != "" && !AllSlashes(head) then RStrip(head, '/') else head
  }

  /** The base name of a path with a separator-free last component. */
  lemma BasenameOfChild(dir: string, name: string)
    requires '/' !in name
    ensures Basename(dir + "/" + name) == name
  {
    var p := dir + "/" + name;
    assert p[|dir|] == '/';
    assert p[|dir| + 1..] == name;
    assert forall k :: |dir| < k < |p| ==> p[k] == name[k - |dir| - 1];
  }

  /** The directory of a path ending in a slash is the path without it. */
  lemma DirnameOfSlashTerminated(dir: string, name: string)
    requires '/' !in name && name != ""
    ensures Dirname(dir + "/" + name + "/") == dir + "/" + name
  {
    var p := dir + "/" + name + "/";
    assert RFind(p, '/') == |p| - 1;
    assert p[..|p|] == p;
    var last := p[|p| - 2];
    assert last == name[|name| - 1];
    assert !AllSlashes(p);
    assert p[..|p| - 1] == dir + "/" + name;
  }

  predicate IsDigit(c: char) {
    '0' <= c <= '9'
  }

  /** A non-empty run of decimal digits, what the regular expression `\d+` accepts. */
  predicate IsDigits(s: string) {
    |s| > 0 && forall k :: 0 <= k < |s| ==> IsDigit(s[k])
  }

  /** Python's `a < b` on strings: lexicographic by code point, a proper
      prefix being smaller. */
  predicate LexLess(a: string, b: string) {
    if |a| == 0 then |b| > 0
    else if |b| == 0 then false
    else if a[0] == b[0] then LexLess(a[1..], b[1..])
    else a[0] < b[0]
  }

  /** Python's `a >= b` on strings. */
  predicate LexAtLeast(a: string, b: string) {
    !LexLess(a, b)
  }

  /** Python's string order is a strict total order. */
  lemma {:induction false} LexLessIrreflexive(a: string)
    ensures !LexLess(a, a)
  {
    if |a| > 0 {
      LexLessIrreflexive(a[1..]);
    }
  }

  lemma {:induction false} LexLessTransitive(a: string, b: string, c: string)
    requires LexLess(a, b) && LexLess(b, c)
    ensures LexLess(a, c)
  {
    if |a| > 0 && |b| > 0 && |c| > 0 && a[0] == b[0] && b[0] == c[0] {
      LexLessTransitive(a[1..], b[1..], c[1..]);
    }
  }

  lemma {:induction false} LexLessTotal(a: string, b: string)
    ensures a == b || LexLess(a, b) || LexLess(b, a)
  {
    if |a| > 0 && |b| > 0 && a[0] == b[0] {
      LexLessTotal(a[1..], b[1..]);
      if a[1..] == b[1..] {
        assert a == [a[0]] + a[1..] && b == [b[0]] + b[1..];
      }
    }
  }
}
