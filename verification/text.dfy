/** The handful of Python `str` operations the sensor protocol is built on:
    `isspace`, `strip`, `startswith`, `split(sep)` and `sep.join(parts)`. */
module Text {
  import opened Wrappers

  /** Python's `str.isspace()` character set: the ASCII controls
      \t \n \v \f \r, the separators \x1c-\x1f, space, and the Unicode
      white-space characters. */
  predicate IsSpace(c: char) {
    || c == ' '
    || ('\t' <= c <= '\r')
    || ('\U{1C}' <= c <= '\U{1F}')
    || c == '\U{85}' || c == '\U{A0}' || c == '\U{1680}'
    || ('\U{2000}' <= c <= '\U{200A}')
    || c == '\U{2028}' || c == '\U{2029}' || c == '\U{202F}'
    || c == '\U{205F}' || c == '\U{3000}'
  }

  predicate AllSpace(s: string) {
    forall i :: 0 <= i < |s| ==> IsSpace(s[i])
  }

  /** Neither end of `s` is white space (vacuously true of ""). */
  predicate Trimmed(s: string) {
    |s| == 0 || (!IsSpace(s[0]) && !IsSpace(s[|s| - 1]))
  }

  /** `s.lstrip()`: the longest suffix of `s` after a white-space prefix. */
  function TrimStart(s: string): (r: string)
    ensures |r| <= |s| && r == s[|s| - |r|..]
    ensures AllSpace(s[..|s| - |r|])
    ensures |r| > 0 ==> !IsSpace(r[0])
    decreases |s|
  {
    if |s| > 0 && IsSpace(s[0]) then
      var r := TrimStart(s[1..]);
      SpaceHead(s, |s| - |r|);
      r
    else s
  }

  lemma SpaceHead(s: string, k: nat)
    requires 0 < k <= |s| && IsSpace(s[0]) && AllSpace(s[1..][..k - 1])
    ensures AllSpace(s[..k])
  {
    assert s[..k] == [s[0]] + s[1..][..k - 1];
  }

  lemma SpaceTail(s: string, k: nat)
    requires k < |s| && IsSpace(s[|s| - 1]) && AllSpace(s[..|s| - 1][k..])
    ensures AllSpace(s[k..]) && s[..|s| - 1][..k] == s[..k]
  {
    assert s[k..] == s[..|s| - 1][k..] + [s[|s| - 1]];
  }

  /** `s.rstrip()`: the longest prefix of `s` before a white-space suffix. */
  function TrimEnd(s: string): (r: string)
    ensures |r| <= |s| && r == s[..|r|]
    ensures AllSpace(s[|r|..])
    ensures |r| > 0 ==> !IsSpace(r[|r| - 1])
    decreases |s|
  {
    if |s| > 0 && IsSpace(s[|s| - 1]) then
      var r := TrimEnd(s[..|s| - 1]);
      SpaceTail(s, |r|);
      r
    else s
  }

  /** `s.strip()`: `s` with white space removed from both ends. */
  function Strip(s: string): (r: string)
    ensures Trimmed(r)
    ensures |r| <= |s|
  {
    TrimEnd(TrimStart(s))
  }

  /** A character absent from `s` is absent from `s.strip()`. */
  lemma StripKeepsOut(s: string, c: char)
    requires c !in s
    ensures c !in Strip(s)
  {
    var pre, post := StripShape(s);
    var t := Strip(s);
    forall i | 0 <= i < |t|
      ensures t[i] != c
    {
      assert t[i] == s[|pre| + i];
    }
  }

  /** Strip keeps a contiguous middle piece of `s` and drops only white
      space on either side of it. */
  lemma StripShape(s: string) returns (pre: string, post: string)
    ensures s == pre + Strip(s) + post && AllSpace(pre) && AllSpace(post)
  {
    var a := TrimStart(s);
    var r := TrimEnd(a);
    pre := s[..|s| - |a|];
    post := a[|r|..];
    Halves(s, |s| - |a|, pre, a);
    Halves(a, |r|, r, post);
    Assoc(pre, r, post);
  }

  lemma Halves(s: string, k: nat, x: string, y: string)
    requires k <= |s| && x == s[..k] && y == s[k..]
    ensures s == x + y
  {
  }

  lemma {:induction false} TrimStartOfTrimmed(pad: string, x: string)
    requires AllSpace(pad)
    requires |x| == 0 || !IsSpace(x[0])
    ensures TrimStart(pad + x) == x
    decreases |pad|
  {
    if |pad| > 0 {
      assert (pad + x)[1..] == pad[1..] + x;
      TrimStartOfTrimmed(pad[1..], x);
    } else {
      assert pad + x == x;
    }
  }

  lemma {:induction false} TrimEndOfTrimmed(x: string, pad: string)
    requires AllSpace(pad)
    requires |x| == 0 || !IsSpace(x[|x| - 1])
    ensures TrimEnd(x + pad) == x
    decreases |pad|
  {
    if |pad| > 0 {
      var pad' := pad[..|pad| - 1];
      assert (x + pad)[..|x + pad| - 1] == x + pad';
      TrimEndOfTrimmed(x, pad');
    } else {
      assert x + pad == x;
    }
  }

  /** Stripping undoes any white-space padding around a trimmed text. */
  lemma StripPadded(pre: string, x: string, post: string)
    requires AllSpace(pre) && AllSpace(post)
    requires |x| > 0 && Trimmed(x)
    ensures Strip(pre + x + post) == x
  {
    assert pre + x + post == pre + (x + post);
    TrimStartOfTrimmed(pre, x + post);
    TrimEndOfTrimmed(x, post);
  }

  lemma AllSpaceConcat(a: string, b: string)
    requires AllSpace(a) && AllSpace(b)
    ensures AllSpace(a + b)
  {
    forall i | 0 <= i < |a + b| ensures IsSpace((a + b)[i]) {
      if i < |a| { assert (a + b)[i] == a[i]; } else { assert (a + b)[i] == b[i - |a|]; }
    }
  }

  /** A text with no white space at either end is its own strip. */
  lemma StripTrimmed(x: string)
    requires |x| > 0 && Trimmed(x)
    ensures Strip(x) == x
  {
    assert "" + x + "" == x;
    StripPadded("", x, "");
  }

  /** Strip yields "" exactly for all-white-space input. */
  lemma StripEmptyIffAllSpace(s: string)
    ensures Strip(s) == "" <==> AllSpace(s)
  {
    if AllSpace(s) {
      assert s + "" == s;
      TrimStartOfTrimmed(s, "");
    }
    var pre, post := StripShape(s);
    if Strip(s) == "" {
      assert s == pre + post;
      forall i | 0 <= i < |s| ensures IsSpace(s[i]) {
        if i < |pre| { assert s[i] == pre[i]; } else { assert s[i] == post[i - |pre|]; }
      }
    }
  }

  /** Python's `s.startswith(p)`. */
  predicate StartsWith(s: string, p: string) {
    |p| <= |s| && s[..|p|] == p
  }

  lemma StartsWithAt(s: string, p: string, i: nat)
    requires StartsWith(s, p) && i < |p|
    ensures s[i] == p[i]
  {
    assert s[..|p|][i] == s[i];
  }

  lemma StartsWithConcat(p: string, rest: string)
    ensures StartsWith(p + rest, p)
  {
    assert (p + rest)[..|p|] == p;
  }

  /** `sep` occurs in `s` starting at index `i`. */
  predicate OccursAt(s: string, sep: string, i: nat) {
    i + |sep| <= |s| && s[i..i + |sep|] == sep
  }

  /** Occurrences in `s[1..]` are the occurrences in `s` shifted by one. */
  lemma OccursShift(s: string, sep: string, i: nat)
    requires |s| > 0
    ensures OccursAt(s, sep, i + 1) <==> OccursAt(s[1..], sep, i)
  {
    if i + 1 + |sep| <= |s| {
      assert s[1..][i..i + |sep|] == s[i + 1..i + 1 + |sep|];
    }
  }

  /** Python's `s.find(sep)` as an option: the first index where `sep`
      occurs (`IndexOfFirst` states that no earlier index does). */
  function IndexOf(s: string, sep: string): (r: Option<nat>)
    requires |sep| > 0
    ensures r.Some? ==> OccursAt(s, sep, r.value)
    decreases |s|
  {
    if |s| < |sep| then None
    else if s[..|sep|] == sep then Some(0)
    else
      var tail := IndexOf(s[1..], sep);
      if tail.None? then None
      else
        OccursShift(s, sep, tail.value);
        Some(tail.value + 1)
  }

  /** `IndexOf` finds the first occurrence, and None means there is none. */
  lemma {:induction false} IndexOfFirst(s: string, sep: string)
    requires |sep| > 0
    ensures IndexOf(s, sep).Some? ==> forall i: nat :: i < IndexOf(s, sep).value ==> !OccursAt(s, sep, i)
    ensures IndexOf(s, sep).None? ==> forall i: nat :: !OccursAt(s, sep, i)
    decreases |s|
  {
    if |s| >= |sep| && s[..|sep|] != sep {
      IndexOfFirst(s[1..], sep);
      forall i: nat | i > 0 ensures OccursAt(s, sep, i) <==> OccursAt(s[1..], sep, i - 1) {
        OccursShift(s, sep, i - 1);
      }
    }
  }

  /** A separator whose first character is absent from `s` never occurs in it. */
  lemma {:induction false} NoOccurrence(s: string, sep: string)
    requires |sep| > 0 && sep[0] !in s
    ensures IndexOf(s, sep) == None
    decreases |s|
  {
    if |s| >= |sep| {
      assert s[..|sep|][0] == s[0];
      assert sep[0] !in s[1..] by {
        forall k | 0 <= k < |s[1..]| ensures s[1..][k] != sep[0] { assert s[1..][k] == s[k + 1]; }
      }
      NoOccurrence(s[1..], sep);
    }
  }

  /** A prefix that cannot start the separator shifts the first occurrence by its length. */
  lemma {:induction false} IndexOfAfterPrefix(c: string, rest: string, sep: string)
    requires |sep| > 0 && sep[0] !in c
    ensures IndexOf(c + rest, sep) == Shift(IndexOf(rest, sep), |c|)
    decreases |c|
  {
    if |c| > 0 {
      var t := c[1..];
      assert sep[0] !in t by {
        forall k | 0 <= k < |t| ensures t[k] != sep[0] { assert t[k] == c[k + 1]; }
      }
      IndexOfAfterPrefix(t, rest, sep);
      assert (c + rest)[0] == c[0];
      assert (c + rest)[1..] == t + rest;
      NotAtStart(c + rest, t + rest, sep);
      ShiftTwice(IndexOf(rest, sep), |t|);
    } else {
      assert c + rest == rest;
    }
  }

  /** A found index moved `k` places to the right. */
  function Shift(r: Option<nat>, k: nat): Option<nat> {
    if r.None? then None else Some(r.value + k)
  }

  lemma ShiftTwice(r: Option<nat>, k: nat)
    ensures Shift(Shift(r, k), 1) == Shift(r, k + 1)
  {
  }

  /** A text whose first character does not start the separator is
      searched from its second character on. */
  lemma NotAtStart(s: string, tail: string, sep: string)
    requires |sep| > 0 && |s| > 0 && s[0] != sep[0] && tail == s[1..]
    ensures IndexOf(s, sep) == Shift(IndexOf(tail, sep), 1)
  {
    if |sep| <= |s| {
      assert s[..|sep|][0] == s[0];
    }
  }

  /** Python's `s.split(sep)` for a non-empty separator. */
  function Split(s: string, sep: string): (parts: seq<string>)
    requires |sep| > 0
    ensures |parts| >= 1
    decreases |s|
  {
    match IndexOf(s, sep)
    case None => [s]
    case Some(i) => [s[..i]] + Split(s[i + |sep|..], sep)
  }

  /** Python's `sep.join(parts)`. */
  function Join(parts: seq<string>, sep: string): string
    decreases |parts|
  {
    if |parts| == 0 then ""
    else if |parts| == 1 then parts[0]
    else parts[0] + sep + Join(parts[1..], sep)
  }

  lemma JoinCons(x: string, tail: seq<string>, sep: string)
    requires |tail| >= 1
    ensures Join([x] + tail, sep) == x + sep + Join(tail, sep)
  {
    assert ([x] + tail)[1..] == tail;
  }

  /** Joining the pieces of a split with the same separator gives back the text. */
  lemma {:induction false} JoinSplit(s: string, sep: string)
    requires |sep| > 0
    ensures Join(Split(s, sep), sep) == s
    decreases |s|
  {
    var idx := IndexOf(s, sep);
    if idx.Some? {
      var i := idx.value;
      var head := s[..i];
      var rest := s[i + |sep|..];
      var tail := Split(rest, sep);
      assert Split(s, sep) == [head] + tail;
      JoinSplit(rest, sep);
      JoinCons(head, tail, sep);
      Reassemble(s, sep, i);
    }
  }

  lemma Reassemble(s: string, sep: string, i: nat)
    requires OccursAt(s, sep, i)
    ensures s == s[..i] + sep + s[i + |sep|..]
  {
    assert s == s[..i] + s[i..i + |sep|] + s[i + |sep|..];
  }

  /** Split only looks past a prefix that cannot start the separator:
      such a prefix glues onto the first piece. */
  lemma SplitPrefix(c: string, rest: string, sep: string)
    requires |sep| > 0 && sep[0] !in c
    ensures Split(c + rest, sep) == [c + Split(rest, sep)[0]] + Split(rest, sep)[1..]
  {
    IndexOfAfterPrefix(c, rest, sep);
    var r := IndexOf(rest, sep);
    if r.None? {
      SplitPrefixWhole(c, rest, sep);
    } else {
      SplitPrefixFound(c, rest, sep, r.value);
    }
  }

  lemma SplitPrefixWhole(c: string, rest: string, sep: string)
    requires |sep| > 0 && IndexOf(rest, sep) == None && IndexOf(c + rest, sep) == None
    ensures Split(c + rest, sep) == [c + Split(rest, sep)[0]] + Split(rest, sep)[1..]
  {
    SplitWhole(c + rest, sep);
    SplitWhole(rest, sep);
    assert [rest][1..] == [];
  }

  lemma SplitPrefixFound(c: string, rest: string, sep: string, j: nat)
    requires |sep| > 0 && IndexOf(rest, sep) == Some(j) && IndexOf(c + rest, sep) == Some(j + |c|)
    ensures Split(c + rest, sep) == [c + Split(rest, sep)[0]] + Split(rest, sep)[1..]
  {
    var s := c + rest;
    var i := j + |c|;
    var tail := rest[j + |sep|..];
    assert s[..i] == c + rest[..j];
    assert s[i + |sep|..] == tail;
    SplitFound(s, sep, i);
    SplitFound(rest, sep, j);
    ConsParts(rest[..j], Split(tail, sep), Split(rest, sep));
  }

  lemma ConsParts<T>(x: T, t: seq<T>, l: seq<T>)
    requires l == [x] + t
    ensures |l| > 0 && l[0] == x && l[1..] == t
  {
  }

  lemma SplitWhole(s: string, sep: string)
    requires |sep| > 0 && IndexOf(s, sep) == None
    ensures Split(s, sep) == [s]
  {
  }

  lemma SplitFound(s: string, sep: string, i: nat)
    requires |sep| > 0 && IndexOf(s, sep) == Some(i)
    ensures i + |sep| <= |s| && Split(s, sep) == [s[..i]] + Split(s[i + |sep|..], sep)
  {
    assert OccursAt(s, sep, IndexOf(s, sep).value);
  }

  /** A text that starts with the separator splits into "" and the rest's pieces. */
  lemma SplitLeading(sep: string, rest: string)
    requires |sep| > 0
    ensures Split(sep + rest, sep) == [""] + Split(rest, sep)
  {
    var s := sep + rest;
    assert s[..|sep|] == sep;
    assert IndexOf(s, sep) == Some(0);
    assert s[|sep|..] == rest;
  }

  /** A text without the separator's first character is a single piece. */
  lemma SplitAbsent(s: string, sep: string)
    requires |sep| > 0 && sep[0] !in s
    ensures Split(s, sep) == [s]
  {
    NoOccurrence(s, sep);
  }

  /** `a + sep + b` with `a` free of the separator splits at that separator. */
  lemma SplitAt(a: string, sep: string, b: string)
    requires |sep| > 0 && sep[0] !in a
    ensures Split(a + sep + b, sep) == [a] + Split(b, sep)
  {
    assert a + sep + b == a + (sep + b);
    SplitPrefix(a, sep + b, sep);
    SplitLeading(sep, b);
    assert a + "" == a;
  }

  /** Splitting a join gives back the pieces when no piece holds the
      separator's first character. */
  lemma {:induction false} SplitJoin(parts: seq<string>, sep: string)
    requires |sep| > 0 && |parts| >= 1
    requires forall k :: 0 <= k < |parts| ==> sep[0] !in parts[k]
    ensures Split(Join(parts, sep), sep) == parts
    decreases |parts|
  {
    if |parts| == 1 {
      SplitAbsent(parts[0], sep);
    } else {
      SplitJoin(parts[1..], sep);
      SplitAt(parts[0], sep, Join(parts[1..], sep));
      assert parts == [parts[0]] + parts[1..];
    }
  }

  /** `s.split(sep)[k]`, or None where Python raises IndexError. */
  function Field(s: string, sep: string, k: nat): (r: Option<string>)
    requires |sep| > 0
    ensures r.Some? <==> k < |Split(s, sep)|
    ensures k == 0 ==> r.Some?
  {
    var parts := Split(s, sep);
    if k < |parts| then Some(parts[k]) else None
  }

  /** A one-character separator splits `s` into more than one piece exactly
      when it occurs in `s`. */
  lemma SplitsIffIn(s: string, c: char)
    ensures |Split(s, [c])| > 1 <==> c in s
  {
    IndexOfFirst(s, [c]);
    match IndexOf(s, [c])
    case None =>
      SplitWhole(s, [c]);
      forall i | 0 <= i < |s| ensures s[i] != c {
        assert !OccursAt(s, [c], i);
        assert s[i..i + 1] == [s[i]];
      }
    case Some(i) =>
      SplitFound(s, [c], i);
      assert s[i..i + 1][0] == s[i];
  }

  /** `(a + sep + b).split(sep)[0]` is `a` when `a` holds no first
      character of `sep`. */
  lemma FirstField(a: string, sep: string, b: string, s: string)
    requires |sep| > 0 && s == a + sep + b && sep[0] !in a
    ensures Field(s, sep, 0) == Some(a)
  {
    SplitAt(a, sep, b);
  }

  /** `(a + sep + b).split(sep)` is `[a, b]` when neither part holds the
      first character of `sep`. */
  lemma SecondField(a: string, sep: string, b: string, s: string)
    requires |sep| > 0 && s == a + sep + b && sep[0] !in a && sep[0] !in b
    ensures Split(s, sep) == [a, b] && Field(s, sep, 1) == Some(b)
  {
    SplitAt(a, sep, b);
    SplitAbsent(b, sep);
  }

  /** `(a + sep + c + rest).split(sep)[1]` is `c` followed by the text of
      `rest` before its first separator, when neither `a` nor `c` holds the
      first character of `sep`. */
  lemma LeadingField(a: string, sep: string, c: string, rest: string, s: string)
    requires |sep| > 0 && s == a + sep + (c + rest) && sep[0] !in a && sep[0] !in c
    ensures Field(s, sep, 1) == Some(c + Split(rest, sep)[0])
  {
    SplitAt(a, sep, c + rest);
    SplitPrefix(c, rest, sep);
  }

  lemma StartsWithShorter(s: string, p: string, q: string)
    requires StartsWith(s, p + q)
    ensures StartsWith(s, p)
  {
    assert s[..|p|] == s[..|p + q|][..|p|];
  }

  /** Concatenation regrouped, for texts given by name. */
  lemma Assoc<T>(x: seq<T>, y: seq<T>, z: seq<T>)
    ensures x + y + z == x + (y + z)
  {
  }

  lemma TrimmedJoin(a: string, b: string)
    requires |a| > 0 && |b| > 0 && !IsSpace(a[0]) && !IsSpace(b[|b| - 1])
    ensures Trimmed(a + b)
  {
    assert (a + b)[|a + b| - 1] == b[|b| - 1];
  }
}
