/**
 * String primitives used by the cleaner and the paragraph filter, over a fixed
 * alphabet: Python's str.strip / str.lower restricted to ASCII whitespace and
 * ASCII letters, the substring test `t in s`, str.split on one character and
 * str.join.
 */
module Text {

  /** Python's str.isspace on ASCII: tab, line feed, vertical tab, form feed,
      carriage return, the separators 0x1C-0x1F, and space. */
  predicate IsSpace(c: char) {
    c == ' ' || ('\t' <= c <= '\r') || ('\U{1C}' <= c <= '\U{1F}')
  }

  predicate AllSpace(s: string) {
    forall i :: 0 <= i < |s| ==> IsSpace(s[i])
  }

  predicate NoSpace(s: string) {
    forall i :: 0 <= i < |s| ==> !IsSpace(s[i])
  }

  /** Neither the first nor the last character is whitespace. */
  predicate Trimmed(s: string) {
    s == [] || (!IsSpace(s[0]) && !IsSpace(s[|s| - 1]))
  }

  /** The index of the first non-whitespace character at or after `i`
      (or |s| when there is none): where str.strip's left cut falls. */
  function SkipSpaces(s: string, i: nat): (n: nat)
    requires i <= |s|
    ensures i <= n <= |s|
    ensures forall k :: i <= k < n ==> IsSpace(s[k])
    ensures n < |s| ==> !IsSpace(s[n])
    decreases |s| - i
  {
    if i < |s| && IsSpace(s[i]) then SkipSpaces(s, i + 1) else i
  }

  /** The end of the text once trailing whitespace in s[lo..j] is dropped:
      where str.strip's right cut falls. */
  function SkipSpacesBack(s: string, lo: nat, j: nat): (n: nat)
    requires lo <= j <= |s|
    ensures lo <= n <= j
    ensures forall k :: n <= k < j ==> IsSpace(s[k])
    ensures n > lo ==> !IsSpace(s[n - 1])
    decreases j
  {
    if j > lo && IsSpace(s[j - 1]) then SkipSpacesBack(s, lo, j - 1) else j
  }

  /** Python's str.strip(): the result is trimmed, it is empty exactly when the
      input is all whitespace, and a trimmed input is returned unchanged. */
  function Strip(s: string): (r: string)
    ensures Trimmed(r)
    ensures |r| <= |s|
    ensures r == [] <==> AllSpace(s)
    ensures Trimmed(s) ==> r == s
  {
    var i := SkipSpaces(s, 0);
    var j := SkipSpacesBack(s, i, |s|);
    assert i < |s| ==> j > i;
    s[i..j]
  }

  /** The input is the stripped text with whitespace on both sides. */
  lemma StripSplit(s: string) returns (pre: string, suf: string)
    ensures s == pre + Strip(s) + suf
    ensures AllSpace(pre) && AllSpace(suf)
  {
    var i := SkipSpaces(s, 0);
    var j := SkipSpacesBack(s, i, |s|);
    pre, suf := s[..i], s[j..];
    assert s == s[..i] + s[i..j] + s[j..];
  }

  lemma StripIdempotent(s: string)
    ensures Strip(Strip(s)) == Strip(s)
  {
  }

  /** ASCII case mapping of one character, as str.lower does on ASCII. */
  function LowerChar(c: char): (d: char)
    ensures !('A' <= d <= 'Z')
    ensures !('A' <= c <= 'Z') ==> d == c
    ensures IsSpace(d) == IsSpace(c)
  {
    if 'A' <= c <= 'Z' then (c as int - 'A' as int + 'a' as int) as char else c
  }

  /** Python's str.lower() over ASCII. */
  function Lower(s: string): (r: string)
    ensures |r| == |s|
    ensures forall i :: 0 <= i < |s| ==> r[i] == LowerChar(s[i])
  {
    seq(|s|, i requires 0 <= i < |s| => LowerChar(s[i]))
  }

  lemma LowerConcat(a: string, b: string)
    ensures Lower(a + b) == Lower(a) + Lower(b)
  {
  }

  /** `t` occurs in `s` starting at index `i`. */
  predicate OccursAt(s: string, t: string, i: int) {
    0 <= i && i + |t| <= |s| && s[i..i + |t|] == t
  }

  /** Python's substring test `t in s`. */
  predicate Contains(s: string, t: string) {
    exists i | 0 <= i <= |s| :: OccursAt(s, t, i)
  }

  /** A nonempty pattern without whitespace occurs in text padded with
      whitespace on both sides exactly when it occurs in the text itself. */
  lemma {:induction false} ContainsPadded(a: string, m: string, b: string, t: string)
    requires AllSpace(a) && AllSpace(b)
    requires NoSpace(t) && |t| > 0
    ensures Contains(a + m + b, t) <==> Contains(m, t)
  {
    var s := a + m + b;
    if Contains(m, t) {
      var i :| OccursAt(m, t, i);
      assert OccursAt(m, t, i);
      assert s[|a| + i..|a| + i + |t|] == m[i..i + |t|];
      assert OccursAt(s, t, |a| + i);
    }
    if Contains(s, t) {
      var i :| OccursAt(s, t, i);
      assert OccursAt(s, t, i);
      assert s[i] == s[i..i + |t|][0] == t[0];
      if i < |a| {
        assert false;
      }
      var e := i + |t| - 1;
      assert s[e] == s[i..i + |t|][|t| - 1] == t[|t| - 1];
      if e >= |a| + |m| {
        assert false;
      }
      assert m[i - |a|..i - |a| + |t|] == s[i..i + |t|];
      assert OccursAt(m, t, i - |a|);
    }
  }

  /** Lower-casing and stripping commute with the substring test for a
      nonempty pattern without whitespace: t occurs in the lowered stripped
      string exactly when it occurs in the lowered string. */
  lemma ContainsLowerStrip(s: string, t: string)
    requires NoSpace(t) && |t| > 0
    ensures Contains(Lower(Strip(s)), t) <==> Contains(Lower(s), t)
  {
    var pre, suf := StripSplit(s);
    LowerConcat(pre + Strip(s), suf);
    LowerConcat(pre, Strip(s));
    ContainsPadded(Lower(pre), Lower(Strip(s)), Lower(suf), t);
  }

  /** Python's s.split(sep) for a one-character separator: always at least
      one piece, and no piece contains the separator. */
  function Split(s: string, sep: char): (r: seq<string>)
    ensures |r| >= 1
    ensures forall i :: 0 <= i < |r| ==> sep !in r[i]
  {
    if s == [] then [""]
    else
      var rest := Split(s[1..], sep);
      if s[0] == sep then [""] + rest
      else [[s[0]] + rest[0]] + rest[1..]
  }

  /** Python's sep.join(xs). */
  function Join(sep: string, xs: seq<string>): (r: string)
    ensures xs == [] ==> r == ""
  {
    if |xs| == 0 then ""
    else if |xs| == 1 then xs[0]
    else xs[0] + sep + Join(sep, xs[1..])
  }

  lemma JoinConsHead(sep: string, c: char, xs: seq<string>)
    requires |xs| >= 1
    ensures Join(sep, [[c] + xs[0]] + xs[1..]) == [c] + Join(sep, xs)
  {
    var ys := [[c] + xs[0]] + xs[1..];
    if |xs| > 1 {
      assert ys[1..] == xs[1..];
    }
  }

  /** Joining the pieces of a split gives back the string. */
  lemma {:induction false} JoinSplit(s: string, sep: char)
    ensures Join([sep], Split(s, sep)) == s
    decreases |s|
  {
    if s != [] {
      var rest := Split(s[1..], sep);
      JoinSplit(s[1..], sep);
      if s[0] == sep {
        assert ([""] + rest)[1..] == rest;
      } else {
        JoinConsHead([sep], s[0], rest);
      }
    }
  }

  lemma {:induction false} SplitThroughSeparator(w: string, sep: char, rest: string)
    requires sep !in w
    ensures Split(w + [sep] + rest, sep) == [w] + Split(rest, sep)
    decreases |w|
  {
    if w == [] {
      assert w + [sep] + rest == [sep] + rest;
      assert ([sep] + rest)[1..] == rest;
    } else {
      var s := w + [sep] + rest;
      assert s[0] == w[0] && s[1..] == w[1..] + [sep] + rest;
      SplitThroughSeparator(w[1..], sep, rest);
      assert [w[0]] + w[1..] == w;
    }
  }

  lemma {:induction false} SplitNoSeparator(w: string, sep: char)
    requires sep !in w
    ensures Split(w, sep) == [w]
    decreases |w|
  {
    if w != [] {
      SplitNoSeparator(w[1..], sep);
      assert [w[0]] + w[1..] == w;
    }
  }

  /** Splitting a join of separator-free pieces gives back the pieces
      (for at least one piece: "".split(sep) is [""], not []). */
  lemma {:induction false} SplitJoin(xs: seq<string>, sep: char)
    requires |xs| >= 1
    requires forall i :: 0 <= i < |xs| ==> sep !in xs[i]
    ensures Split(Join([sep], xs), sep) == xs
  {
    if |xs| == 1 {
      SplitNoSeparator(xs[0], sep);
    } else {
      SplitJoin(xs[1..], sep);
      SplitThroughSeparator(xs[0], sep, Join([sep], xs[1..]));
      assert [xs[0]] + xs[1..] == xs;
    }
  }

  /** Joining two nonempty lists: the joins meet at one separator. */
  lemma {:induction false} JoinAppend(sep: string, a: seq<string>, b: seq<string>)
    requires |a| >= 1 && |b| >= 1
    ensures Join(sep, a + b) == Join(sep, a) + sep + Join(sep, b)
  {
    if |a| == 1 {
      assert (a + b)[1..] == b;
    } else {
      assert (a + b)[1..] == a[1..] + b;
      JoinAppend(sep, a[1..], b);
    }
  }

  lemma ContainsLeft(a: string, b: string, t: string)
    requires Contains(a, t)
    ensures Contains(a + b, t)
  {
    var i :| OccursAt(a, t, i);
    assert OccursAt(a, t, i);
    assert (a + b)[i..i + |t|] == a[i..i + |t|];
    assert OccursAt(a + b, t, i);
  }

  lemma ContainsRight(a: string, b: string, t: string)
    requires Contains(b, t)
    ensures Contains(a + b, t)
  {
    var i :| OccursAt(b, t, i);
    assert OccursAt(b, t, i);
    assert (a + b)[|a| + i..|a| + i + |t|] == b[i..i + |t|];
    assert OccursAt(a + b, t, |a| + i);
  }

  lemma OccurrenceChar(s: string, t: string, i: int, q: int)
    ensures OccursAt(s, t, i) && i <= q < i + |t| ==> s[q] == t[q - i]
  {
    if OccursAt(s, t, i) && i <= q < i + |t| {
      assert s[q] == s[i..i + |t|][q - i];
    }
  }

  lemma ConcatMiddleChar(a: string, sep: string, b: string, q: int)
    ensures |a| <= q < |a| + |sep| ==> (a + sep + b)[q] == sep[q - |a|]
  {
  }

  /** A nonempty pattern without whitespace cannot straddle a whitespace
      separator: it occurs in a + sep + b only if it occurs in a or in b. */
  lemma ContainsAcrossSpace(a: string, sep: string, b: string, t: string)
    requires AllSpace(sep) && |sep| > 0
    requires NoSpace(t) && |t| > 0
    requires Contains(a + sep + b, t)
    ensures Contains(a, t) || Contains(b, t)
  {
    var s := a + sep + b;
    var i :| OccursAt(s, t, i);
    assert OccursAt(s, t, i);
    if i + |t| <= |a| {
      assert a[i..i + |t|] == s[i..i + |t|];
      assert OccursAt(a, t, i);
    } else if i >= |a| + |sep| {
      var k := i - |a| - |sep|;
      assert b[k..k + |t|] == s[i..i + |t|];
      assert OccursAt(b, t, k);
    } else {
      var q := if i < |a| then |a| else i;
      OccurrenceChar(s, t, i, q);
      ConcatMiddleChar(a, sep, b, q);
      assert false;
    }
  }

  /** Joining with a whitespace separator creates no occurrence of a nonempty
      pattern without whitespace, even after lower-casing. */
  lemma {:induction false} JoinNoMarker(sep: string, xs: seq<string>, t: string)
    requires AllSpace(sep) && |sep| > 0
    requires NoSpace(t) && |t| > 0
    requires forall i :: 0 <= i < |xs| ==> !Contains(Lower(xs[i]), t)
    ensures !Contains(Lower(Join(sep, xs)), t)
  {
    if |xs| == 1 {
    } else if |xs| > 1 {
      JoinNoMarker(sep, xs[1..], t);
      var rest := Join(sep, xs[1..]);
      LowerConcat(xs[0] + sep, rest);
      LowerConcat(xs[0], sep);
      if Contains(Lower(xs[0]) + Lower(sep) + Lower(rest), t) {
        ContainsAcrossSpace(Lower(xs[0]), Lower(sep), Lower(rest), t);
        assert false;
      }
    }
  }

  /** Every piece of a join is part of the joined text, so a pattern in a
      piece (after lower-casing) is in the join. */
  lemma {:induction false} JoinKeepsMarker(sep: string, xs: seq<string>, k: nat, t: string)
    requires k < |xs| && Contains(Lower(xs[k]), t)
    ensures Contains(Lower(Join(sep, xs)), t)
  {
    if |xs| > 1 {
      var rest := Join(sep, xs[1..]);
      LowerConcat(xs[0] + sep, rest);
      LowerConcat(xs[0], sep);
      if k == 0 {
        ContainsLeft(Lower(xs[0]), Lower(sep) + Lower(rest), t);
        assert Lower(xs[0]) + (Lower(sep) + Lower(rest)) == Lower(xs[0]) + Lower(sep) + Lower(rest);
      } else {
        JoinKeepsMarker(sep, xs[1..], k - 1, t);
        ContainsRight(Lower(xs[0]) + Lower(sep), Lower(rest), t);
      }
    }
  }
}
