/**
 * The Python string built-ins the core relies on: str.strip, str.split with a
 * one-character separator, str.join and the substring test `sub in s`.
 * Strings are sequences of characters.
 */
module Text {

  /** The characters for which Python's str.isspace() holds: those removed by a bare str.strip(). */
  const WHITESPACE: set<char> := {
    '\t', '\n', '\U{000B}', '\U{000C}', '\r',
    '\U{001C}', '\U{001D}', '\U{001E}', '\U{001F}', ' ',
    '\U{0085}', '\U{00A0}', '\U{1680}',
    '\U{2000}', '\U{2001}', '\U{2002}', '\U{2003}', '\U{2004}', '\U{2005}',
    '\U{2006}', '\U{2007}', '\U{2008}', '\U{2009}', '\U{200A}',
    '\U{2028}', '\U{2029}', '\U{202F}', '\U{205F}', '\U{3000}'
  }

  predicate StartsWith(s: string, prefix: string) {
    |prefix| <= |s| && s[..|prefix|] == prefix
  }

  /** Index of the first c in s, or |s| when s holds no c. */
  function IndexOf(s: string, c: char): (i: nat)
    ensures i <= |s|
    ensures i < |s| ==> s[i] == c
    ensures forall k :: 0 <= k < i ==> s[k] != c
  {
    if |s| == 0 || s[0] == c then 0 else 1 + IndexOf(s[1..], c)
  }

  /** What comes before the first c holds no c; when there is a c, s is split around it. */
  lemma IndexOfSlices(s: string, c: char)
    ensures c !in s[..IndexOf(s, c)]
    ensures IndexOf(s, c) < |s| ==> s == s[..IndexOf(s, c)] + ([c] + s[IndexOf(s, c) + 1..])
  {
    var i := IndexOf(s, c);
    assert forall k :: 0 <= k < i ==> s[..i][k] == s[k];
    if i < |s| {
      assert s[i..] == [c] + s[i + 1..];
      assert s == s[..i] + s[i..];
    }
  }

  // ---------------------------------------------------------------- strip

  /** Python's s.lstrip(chars): drops the longest prefix made of chars. */
  function TrimLeft(s: string, chars: set<char>): (r: string)
    ensures |r| <= |s|
  {
    if |s| > 0 && s[0] in chars then TrimLeft(s[1..], chars) else s
  }

  /** lstrip leaves a suffix of s, drops only chars, and stops at the first other character. */
  lemma {:induction false} TrimLeftFacts(s: string, chars: set<char>)
    ensures var r := TrimLeft(s, chars);
      && r == s[|s| - |r|..]
      && (forall k :: 0 <= k < |s| - |r| ==> s[k] in chars)
      && (r == [] || r[0] !in chars)
    decreases |s|
  {
    if |s| > 0 && s[0] in chars {
      TrimLeftFacts(s[1..], chars);
      var r := TrimLeft(s, chars);
      assert s[1..][|s| - 1 - |r|..] == s[|s| - |r|..];
      assert forall k :: 1 <= k < |s| - |r| ==> s[k] == s[1..][k - 1];
    }
  }

  /** Python's s.rstrip(chars): drops the longest suffix made of chars. */
  function TrimRight(s: string, chars: set<char>): (r: string)
    ensures |r| <= |s|
  {
    if |s| > 0 && s[|s| - 1] in chars then TrimRight(s[..|s| - 1], chars) else s
  }

  /** rstrip leaves a prefix of s, drops only chars, and stops at the last other character. */
  lemma {:induction false} TrimRightFacts(s: string, chars: set<char>)
    ensures var r := TrimRight(s, chars);
      && r == s[..|r|]
      && (forall k :: |r| <= k < |s| ==> s[k] in chars)
      && (r == [] || r[|r| - 1] !in chars)
    decreases |s|
  {
    if |s| > 0 && s[|s| - 1] in chars {
      TrimRightFacts(s[..|s| - 1], chars);
      var r := TrimRight(s, chars);
      assert s[..|s| - 1][..|r|] == s[..|r|];
      assert forall k :: |r| <= k < |s| - 1 ==> s[k] == s[..|s| - 1][k];
    }
  }

  /** Python's s.strip(chars). */
  function Strip(s: string, chars: set<char>): (r: string)
    ensures |r| <= |s|
  {
    TrimRight(TrimLeft(s, chars), chars)
  }

  /** strip() empties exactly the strings made of chars, and leaves no char at either end. */
  lemma StripEnds(s: string, chars: set<char>)
    ensures Strip(s, chars) == [] <==> AllIn(s, chars)
    ensures Strip(s, chars) != [] ==> Strip(s, chars)[0] !in chars && Strip(s, chars)[|Strip(s, chars)| - 1] !in chars
  {
    var l := TrimLeft(s, chars);
    TrimLeftFacts(s, chars);
    TrimRightFacts(l, chars);
    assert l != [] ==> l[0] == s[|s| - |l|];
  }

  /** Every character of s is one of chars. */
  predicate AllIn(s: string, chars: set<char>) {
    forall k :: 0 <= k < |s| ==> s[k] in chars
  }

  lemma {:induction false} TrimLeftUnique(s: string, x: string, r: string, chars: set<char>)
    requires s == x + r && AllIn(x, chars)
    requires r == [] || r[0] !in chars
    ensures TrimLeft(s, chars) == r
    decreases |x|
  {
    if x == [] {
      assert s == r;
    } else {
      assert s[0] == x[0];
      assert s[1..] == x[1..] + r;
      TrimLeftUnique(s[1..], x[1..], r, chars);
    }
  }

  lemma {:induction false} TrimRightUnique(s: string, r: string, y: string, chars: set<char>)
    requires s == r + y && AllIn(y, chars)
    requires r == [] || r[|r| - 1] !in chars
    ensures TrimRight(s, chars) == r
    decreases |y|
  {
    if y == [] {
      assert s == r;
    } else {
      assert s[|s| - 1] == y[|y| - 1];
      assert s[..|s| - 1] == r + y[..|y| - 1];
      TrimRightUnique(s[..|s| - 1], r, y[..|y| - 1], chars);
    }
  }

  /** Whatever splits s into a run of chars, a middle with no chars at its ends,
      and a run of chars, Strip returns that middle. */
  lemma StripUnique(s: string, x: string, m: string, y: string, chars: set<char>)
    requires s == x + m + y
    requires AllIn(x, chars) && AllIn(y, chars)
    requires m == [] || (m[0] !in chars && m[|m| - 1] !in chars)
    ensures Strip(s, chars) == m
  {
    if m == [] {
      assert s == x + y;
      AllInConcat(x, y, chars);
      StripEnds(s, chars);
    } else {
      ConcatAssoc(x, m, y);
      assert (m + y)[0] == m[0];
      TrimLeftUnique(s, x, m + y, chars);
      TrimRightUnique(m + y, m, y, chars);
    }
  }

  lemma TrimLeftSlice(s: string, chars: set<char>) returns (front: string)
    ensures s == front + TrimLeft(s, chars) && AllIn(front, chars)
  {
    var l := TrimLeft(s, chars);
    TrimLeftFacts(s, chars);
    front := s[..|s| - |l|];
    assert s == front + s[|s| - |l|..];
  }

  lemma TrimRightSlice(s: string, chars: set<char>) returns (back: string)
    ensures s == TrimRight(s, chars) + back && AllIn(back, chars)
  {
    var r := TrimRight(s, chars);
    TrimRightFacts(s, chars);
    back := s[|r|..];
    assert s == s[..|r|] + back;
  }

  /** s is what it strips to, with a run of chars on either side. */
  lemma StripSlices(s: string, chars: set<char>) returns (front: string, back: string)
    ensures s == front + Strip(s, chars) + back
    ensures AllIn(front, chars) && AllIn(back, chars)
  {
    var l := TrimLeft(s, chars);
    front := TrimLeftSlice(s, chars);
    back := TrimRightSlice(l, chars);
    ConcatAssoc(front, Strip(s, chars), back);
  }

  lemma ConcatAssoc<T>(x: seq<T>, y: seq<T>, z: seq<T>)
    ensures x + (y + z) == (x + y) + z
  {
  }

  lemma AllInConcat(u: string, v: string, chars: set<char>)
    requires AllIn(u, chars) && AllIn(v, chars)
    ensures AllIn(u + v, chars)
  {
    assert forall k :: 0 <= k < |u| ==> (u + v)[k] == u[k];
    assert forall k :: |u| <= k < |u + v| ==> (u + v)[k] == v[k - |u|];
  }

  /** strip() ignores whatever run of chars surrounds its argument. */
  lemma StripPadded(a: string, p: string, b: string, chars: set<char>)
    requires AllIn(a, chars) && AllIn(b, chars)
    ensures Strip(a + p + b, chars) == Strip(p, chars)
  {
    var m := Strip(p, chars);
    var front, back := StripSlices(p, chars);
    StripEnds(p, chars);
    AllInConcat(a, front, chars);
    AllInConcat(back, b, chars);
    calc {
      a + p + b;
      a + ((front + m) + back) + b;
      { ConcatAssoc(a, front + m, back); }
      (a + (front + m)) + back + b;
      { ConcatAssoc(a, front, m); }
      ((a + front) + m) + back + b;
      { ConcatAssoc((a + front) + m, back, b); }
      ((a + front) + m) + (back + b);
    }
    assert m == [] || (m[0] !in chars && m[|m| - 1] !in chars);
    StripUnique(a + p + b, a + front, m, back + b, chars);
  }

  // ---------------------------------------------------------------- split and join

  /** Python's s.split(c): the fields between occurrences of c, in order.
      Like Python, "" splits to [""], and adjacent separators give empty fields. */
  function Split(s: string, c: char): (parts: seq<string>)
    ensures |parts| >= 1
    ensures forall k :: 0 <= k < |parts| ==> c !in parts[k]
    decreases |s|
  {
    var i := IndexOf(s, c);
    if i == |s| then [s] else [s[..i]] + Split(s[i + 1..], c)
  }

  /** The split has a single field exactly when s holds no separator. */
  lemma SplitSingle(s: string, c: char)
    ensures |Split(s, c)| == 1 <==> c !in s
  {
    var i := IndexOf(s, c);
    if i < |s| {
      assert s[i] == c;
    }
  }

  /** Python's sep.join(parts), which begins with the first part. */
  function Join(parts: seq<string>, sep: string): (r: string)
    ensures |parts| >= 1 ==> StartsWith(r, parts[0])
  {
    if |parts| == 0 then ""
    else if |parts| == 1 then parts[0]
    else parts[0] + sep + Join(parts[1..], sep)
  }

  /** The first c of a + [c] + b, where a has none, is the one after a. */
  lemma IndexOfCons(a: string, c: char, b: string)
    requires c !in a
    ensures IndexOf(a + ([c] + b), c) == |a|
  {
    var s := a + ([c] + b);
    assert s[|a|] == c;
    assert forall k :: 0 <= k < |a| ==> s[k] == a[k];
  }

  /** Joining a part in front of a non-empty list puts the separator after it. */
  lemma JoinCons(a: string, rest: seq<string>, sep: string)
    requires |rest| >= 1
    ensures Join([a] + rest, sep) == a + sep + Join(rest, sep)
  {
    assert ([a] + rest)[1..] == rest;
  }

  /** Joining the fields of a split with the separator gives the string back. */
  lemma {:induction false} JoinSplit(s: string, c: char)
    ensures Join(Split(s, c), [c]) == s
    decreases |s|
  {
    var i := IndexOf(s, c);
    if i < |s| {
      var a, b := s[..i], s[i + 1..];
      var rest := Split(b, c);
      assert Split(s, c) == [a] + rest;
      JoinSplit(b, c);
      JoinCons(a, rest, [c]);
      assert s == a + [c] + b;
    }
  }

  /** Joining one more part appends the separator and the part. */
  lemma {:induction false} JoinSnoc(parts: seq<string>, sep: string, last: string)
    requires |parts| >= 1
    ensures Join(parts + [last], sep) == Join(parts, sep) + sep + last
    decreases |parts|
  {
    if |parts| > 1 {
      JoinSnoc(parts[1..], sep, last);
      assert (parts + [last])[1..] == parts[1..] + [last];
    } else {
      assert (parts + [last])[1..] == [last];
    }
  }

  /** ''.join of a list grows by exactly the appended string. */
  lemma ConcatSnoc(parts: seq<string>, last: string)
    ensures Join(parts + [last], "") == Join(parts, "") + last
  {
    if parts == [] {
      assert parts + [last] == [last];
    } else {
      JoinSnoc(parts, "", last);
    }
  }

  /** x is the last c-separated field of t: a suffix of t holding no c that is all of t
      or follows a c. */
  predicate LastField(t: string, c: char, x: string) {
    && c !in x
    && |x| <= |t| && t[|t| - |x|..] == x
    && (|x| == |t| || t[|t| - |x| - 1] == c)
  }

  /** o and n are the last two c-separated fields of s: n is its last field, and o the
      last field of what comes before the c in front of n. */
  predicate LastTwoFields(s: string, c: char, o: string, n: string) {
    |n| < |s| && LastField(s, c, n) && LastField(s[..|s| - |n| - 1], c, o)
  }

  /** A string has one last field. */
  lemma LastFieldUnique(t: string, c: char, x: string, y: string)
    requires LastField(t, c, x) && LastField(t, c, y)
    ensures x == y
  {
    assert forall k :: |t| - |x| <= k < |t| ==> t[k] == x[k - (|t| - |x|)];
    assert forall k :: |t| - |y| <= k < |t| ==> t[k] == y[k - (|t| - |y|)];
    assert |x| <= |y|;
    assert |y| <= |x|;
  }

  /** Two last fields are told apart by a separator, which s therefore holds. */
  lemma LastTwoFieldsSeparator(s: string, c: char, o: string, n: string)
    requires LastTwoFields(s, c, o, n)
    ensures s[|s| - |n| - 1] == c && c in s
  {
  }

  /** A string has one pair of last two fields. */
  lemma LastTwoFieldsUnique(s: string, c: char, o: string, n: string, o': string, n': string)
    requires LastTwoFields(s, c, o, n) && LastTwoFields(s, c, o', n')
    ensures o == o' && n == n'
  {
    LastFieldUnique(s, c, n, n');
    LastFieldUnique(s[..|s| - |n| - 1], c, o, o');
  }

  lemma LastFieldBehind(a: string, c: char, t: string, x: string)
    requires LastField(t, c, x)
    ensures LastField(a + ([c] + t), c, x)
  {
    var s := a + ([c] + t);
    assert s[|s| - |x|..] == t[|t| - |x|..];
    if |x| == |t| {
      assert s[|s| - |x| - 1] == s[|a|] == c;
    } else {
      assert s[|s| - |x| - 1] == t[|t| - |x| - 1];
    }
  }

  lemma FieldsBehindSeparator(a: string, c: char, b: string, o: string, n: string)
    requires LastTwoFields(b, c, o, n)
    ensures LastTwoFields(a + ([c] + b), c, o, n)
  {
    var s := a + ([c] + b);
    LastFieldBehind(a, c, b, n);
    var front := b[..|b| - |n| - 1];
    LastFieldBehind(a, c, front, o);
    assert s[..|s| - |n| - 1] == a + ([c] + front);
  }

  /** When the split of s has two or more fields, its last two are the last two fields of s. */
  lemma {:induction false} SplitLastTwo(s: string, c: char)
    requires |Split(s, c)| >= 2
    ensures LastTwoFields(s, c, Split(s, c)[|Split(s, c)| - 2], Split(s, c)[|Split(s, c)| - 1])
    decreases |s|
  {
    var i := IndexOf(s, c);
    var a, b := s[..i], s[i + 1..];
    assert s == a + ([c] + b);
    var parts, q := Split(s, c), Split(b, c);
    assert parts == [a] + q;
    if |q| >= 2 {
      SplitLastTwo(b, c);
      assert parts[|parts| - 2] == q[|q| - 2] && parts[|parts| - 1] == q[|q| - 1];
      FieldsBehindSeparator(a, c, b, q[|q| - 2], q[|q| - 1]);
    } else {
      assert q == [b];
      assert s[|s| - |b|..] == b;
      assert s[..|s| - |b| - 1] == a;
    }
  }

  // ---------------------------------------------------------------- substring test

  /** sub occurs in s starting at index i. */
  predicate OccursAt(s: string, sub: string, i: nat) {
    i + |sub| <= |s| && s[i..i + |sub|] == sub
  }

  /** Python's `sub in s`: sub occurs in s at some offset. */
  predicate Contains(s: string, sub: string) {
    exists i: nat | i <= |s| :: OccursAt(s, sub, i)
  }

  /** A substring of b is a substring of a + b. */
  lemma ContainsBehind(a: string, b: string, sub: string)
    requires Contains(b, sub)
    ensures Contains(a + b, sub)
  {
    var i: nat :| i <= |b| && OccursAt(b, sub, i);
    assert i + |sub| <= |b|;
    assert (a + b)[|a| + i..|a| + i + |sub|] == b[i..i + |sub|];
    assert OccursAt(a + b, sub, |a| + i);
  }

  /** Every part of sep.join(parts) is a substring of it. */
  lemma {:induction false} JoinContainsEach(parts: seq<string>, sep: string, k: nat)
    requires k < |parts|
    ensures Contains(Join(parts, sep), parts[k])
    decreases |parts|
  {
    if |parts| == 1 {
      assert Join(parts, sep)[0..|parts[0]|] == parts[0];
      assert OccursAt(Join(parts, sep), parts[k], 0);
    } else if k == 0 {
      assert Join(parts, sep)[0..|parts[0]|] == parts[0];
      assert OccursAt(Join(parts, sep), parts[k], 0);
    } else {
      JoinContainsEach(parts[1..], sep, k - 1);
      ContainsBehind(parts[0] + sep, Join(parts[1..], sep), parts[k]);
    }
  }

  /** Every part of sep.join(parts) is a substring of it. */
  lemma JoinContainsAll(parts: seq<string>, sep: string)
    ensures forall k :: 0 <= k < |parts| ==> Contains(Join(parts, sep), parts[k])
  {
    forall k | 0 <= k < |parts| ensures Contains(Join(parts, sep), parts[k]) {
      JoinContainsEach(parts, sep, k);
    }
  }

  /** A string without the first character of sub does not contain sub. */
  lemma MissingFirstChar(s: string, sub: string)
    requires |sub| > 0 && sub[0] !in s
    ensures !Contains(s, sub)
  {
    forall i: nat | i + |sub| <= |s|
      ensures !OccursAt(s, sub, i)
    {
      assert s[i] in s;
      assert s[i..i + |sub|][0] == s[i];
    }
  }
}
