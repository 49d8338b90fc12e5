/**
 * clean_text: split on line feeds, strip each line, keep the stripped lines
 * longer than 30 characters whose text does not mention "reddit" in any
 * case, and join the kept lines with line feeds.
 */
module Cleaner {
  import opened Text

  /** Lines whose stripped length is at most this are dropped. */
  const MinLineLength: nat := 30

  /** The line-level noise marker, matched case-insensitively. */
  const LineMarker: string := "reddit"

  /** The condition of clean_text's comprehension for one raw line: the length
      test is on the stripped line, the marker test on the lower-cased raw line. */
  predicate KeepLine(line: string) {
    |Strip(line)| > MinLineLength && !Contains(Lower(line), LineMarker)
  }

  /** The output condition on one line: stripped, long enough, no marker. */
  predicate CleanLine(line: string) {
    Strip(line) == line && |line| > MinLineLength && !Contains(Lower(line), LineMarker)
  }

  lemma MarkerHasNoSpace()
    ensures NoSpace(LineMarker) && |LineMarker| > 0
  {
  }

  /** A raw line is kept exactly when its stripped form is a clean line. */
  lemma KeepLineStrip(line: string)
    ensures KeepLine(line) <==> CleanLine(Strip(line))
  {
    MarkerHasNoSpace();
    ContainsLowerStrip(line, LineMarker);
    StripIdempotent(line);
  }

  /** The stripped form of every line that passes KeepLine, in order: every
      result is a clean line, free of line feeds when the input lines are. */
  function KeptLines(lines: seq<string>): (r: seq<string>)
    ensures |r| <= |lines|
    ensures forall i :: 0 <= i < |r| ==> CleanLine(r[i])
    ensures (forall i :: 0 <= i < |lines| ==> '\n' !in lines[i]) ==>
              forall i :: 0 <= i < |r| ==> '\n' !in r[i]
  {
    if lines == [] then []
    else
      KeepLineStrip(lines[0]);
      StripSplitNoFeed(lines[0]);
      (if KeepLine(lines[0]) then [Strip(lines[0])] else []) + KeptLines(lines[1..])
  }

  /** Stripping does not introduce characters. */
  lemma StripSplitNoFeed(line: string)
    ensures '\n' !in line ==> '\n' !in Strip(line)
  {
    var pre, suf := StripSplit(line);
    assert line == pre + Strip(line) + suf;
  }

  /** KeptLines is a filter-map: it distributes over concatenation, so kept
      lines stay in input order and no qualifying line is lost. */
  lemma {:induction false} KeptLinesAppend(a: seq<string>, b: seq<string>)
    ensures KeptLines(a + b) == KeptLines(a) + KeptLines(b)
  {
    if a == [] {
      assert a + b == b;
    } else {
      assert (a + b)[0] == a[0];
      assert (a + b)[1..] == a[1..] + b;
      KeptLinesAppend(a[1..], b);
    }
  }

  /** On one line, KeptLines keeps its stripped form exactly when KeepLine holds. */
  lemma KeptLinesSingle(line: string)
    ensures KeptLines([line]) == if KeepLine(line) then [Strip(line)] else []
  {
    assert [line][1..] == [];
  }

  /** Clean lines pass through KeptLines unchanged. */
  lemma {:induction false} KeptLinesOfClean(lines: seq<string>)
    requires forall i :: 0 <= i < |lines| ==> CleanLine(lines[i])
    ensures KeptLines(lines) == lines
  {
    if lines != [] {
      KeepLineStrip(lines[0]);
      KeptLinesOfClean(lines[1..]);
    }
  }

  /** clean_text. */
  function CleanText(raw: string): (r: string) {
    Join("\n", KeptLines(Split(raw, '\n')))
  }

  /** Every line of the output is stripped, longer than 30 characters and free
      of the marker in any case; the output lines are exactly the kept lines;
      and the output is empty exactly when no line qualifies. */
  lemma CleanTextLines(raw: string)
    ensures var kept := KeptLines(Split(raw, '\n'));
      && (CleanText(raw) == "" <==> kept == [])
      && (kept != [] ==> Split(CleanText(raw), '\n') == kept)
      && (CleanText(raw) == "" ||
          forall i :: 0 <= i < |Split(CleanText(raw), '\n')| ==> CleanLine(Split(CleanText(raw), '\n')[i]))
  {
    var kept := KeptLines(Split(raw, '\n'));
    if kept != [] {
      SplitJoin(kept, '\n');
    }
  }

  /** clean_text(clean_text(s)) == clean_text(s), the empty result included. */
  lemma CleanTextIdempotent(raw: string)
    ensures CleanText(CleanText(raw)) == CleanText(raw)
  {
    var kept := KeptLines(Split(raw, '\n'));
    CleanTextLines(raw);
    if kept == [] {
      assert CleanText(raw) == "";
      assert Split("", '\n') == [""];
      KeptLinesSingle("");
    } else {
      KeptLinesOfClean(kept);
    }
  }

  /** Kept lines are stripped source lines, so they mention a pattern (not
      containing whitespace) only if some source line does. */
  lemma {:induction false} KeptLinesNoMarker(lines: seq<string>, t: string)
    requires NoSpace(t) && |t| > 0
    requires forall k :: 0 <= k < |lines| ==> !Contains(Lower(lines[k]), t)
    ensures forall i :: 0 <= i < |KeptLines(lines)| ==> !Contains(Lower(KeptLines(lines)[i]), t)
  {
    if lines != [] {
      ContainsLowerStrip(lines[0], t);
      KeptLinesNoMarker(lines[1..], t);
    }
  }

  /** Cleaning never introduces a nonempty pattern without whitespace,
      compared case-insensitively. */
  lemma CleanTextNoNewMarker(raw: string, t: string)
    requires NoSpace(t) && |t| > 0
    requires !Contains(Lower(raw), t)
    ensures !Contains(Lower(CleanText(raw)), t)
  {
    var lines := Split(raw, '\n');
    forall k | 0 <= k < |lines| ensures !Contains(Lower(lines[k]), t) {
      if Contains(Lower(lines[k]), t) {
        JoinKeepsMarker(['\n'], lines, k, t);
        JoinSplit(raw, '\n');
        assert false;
      }
    }
    KeptLinesNoMarker(lines, t);
    JoinNoMarker("\n", KeptLines(lines), t);
  }

  /** The whole cleaned text, not only each line, is free of the line marker
      in any case. */
  lemma CleanTextNoLineMarker(raw: string)
    ensures !Contains(Lower(CleanText(raw)), LineMarker)
  {
    MarkerHasNoSpace();
    JoinNoMarker("\n", KeptLines(Split(raw, '\n')), LineMarker);
  }
}
