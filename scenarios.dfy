/**
 * Worked examples, each derived from the general theorems rather than by
 * evaluation: the tie-break of the sentiment vote, the entity ranking of a
 * small mention list, and the line filter on two lines.
 */
module Scenarios {
  import opened Base
  import opened Text
  import opened Counting
  import opened Cleaner
  import opened Analysis

  /** A 2-2 tie goes to the label voted first. */
  lemma TieGoesToFirstVoted(xs: seq<Label>)
    requires xs == [POSITIVE, NEGATIVE, POSITIVE, NEGATIVE] || xs == [NEGATIVE, POSITIVE, POSITIVE, NEGATIVE]
    ensures MaxKey(Tally(xs)) == Some(xs[0])
  {
    MajorityVote(xs);
    var w := MaxKey(Tally(xs)).value;
    assert multiset(xs)[POSITIVE] == 2 && multiset(xs)[NEGATIVE] == 2;
    assert FirstIndex(xs, xs[0]) == 0;
    assert Occurrences(xs, w) == Occurrences(xs, xs[0]);
    assert FirstIndex(xs, w) == 0;
  }

  const Mentions: seq<string> := ["Apple", "Apple", "Google", "Microsoft", "Google", "Apple"]

  lemma MentionFacts()
    ensures DistinctCount(Mentions) == 3
    ensures forall x :: x in Mentions ==> x == "Apple" || x == "Google" || x == "Microsoft"
    ensures Occurrences(Mentions, "Apple") == 3
    ensures Occurrences(Mentions, "Google") == 2
    ensures Occurrences(Mentions, "Microsoft") == 1
  {
    var xs := Mentions;
    assert xs[0] == "Apple" && xs[2] == "Google" && xs[3] == "Microsoft";
    var three: set<string> := {"Apple", "Google", "Microsoft"};
    assert (set x | x in xs) == three;
    assert |three| == 3;
    assert xs == ["Apple", "Apple"] + ["Google", "Microsoft", "Google", "Apple"];
  }

  /** A ranking of three entries over three values with distinct counts lists
      them by count. */
  lemma RankedThree<T>(xs: seq<T>, r: seq<Entry<T>>, a: T, b: T, c: T)
    requires |r| == 3 && RankedBy(xs, r)
    requires forall i :: 0 <= i < 3 ==> r[i].count == Occurrences(xs, r[i].key)
    requires forall i :: 0 <= i < 3 ==> r[i].key == a || r[i].key == b || r[i].key == c
    requires Occurrences(xs, a) > Occurrences(xs, b) > Occurrences(xs, c)
    ensures r == [Entry(a, Occurrences(xs, a)), Entry(b, Occurrences(xs, b)), Entry(c, Occurrences(xs, c))]
  {
    assert Precedes(xs, r[0], r[1]) && Precedes(xs, r[1], r[2]) && Precedes(xs, r[0], r[2]);
  }

  /** Apple, Apple, Google, Microsoft, Google, Apple ranks as
      (Apple, 3), (Google, 2), (Microsoft, 1). */
  lemma EntityRanking()
    ensures MostCommon(Tally(Mentions), 10)
         == [Entry("Apple", 3), Entry("Google", 2), Entry("Microsoft", 1)]
  {
    MentionFacts();
    MostCommonOfTally(Mentions, 10);
    RankedThree(Mentions, MostCommon(Tally(Mentions), 10), "Apple", "Google", "Microsoft");
  }

  /** A pattern with a 'd' cannot occur in a text without one. */
  lemma NoLetterNoMarker(s: string)
    requires 'd' !in s
    ensures !Contains(s, LineMarker)
  {
    if Contains(s, LineMarker) {
      var i :| OccursAt(s, LineMarker, i);
      OccurrenceChar(s, LineMarker, i, i + 2);
      assert false;
    }
  }

  /** A 51-character sentence without the marker, kept as four short pieces. */
  const LongLine: string := "This is a " + "sufficiently " + "long sentence " + "about markets."

  lemma LongLineFacts()
    ensures Trimmed(LongLine) && |LongLine| == 51
    ensures 'd' !in LongLine && 'D' !in LongLine
  {
    var p1, p2, p3, p4 := "This is a ", "sufficiently ", "long sentence ", "about markets.";
    assert 'd' !in p1 && 'd' !in p2 && 'd' !in p3 && 'd' !in p4;
    assert 'D' !in p1 && 'D' !in p2 && 'D' !in p3 && 'D' !in p4;
    assert LongLine[0] == p1[0] && LongLine[50] == p4[|p4| - 1];
  }

  /** A long line that mentions the marker in upper case, around it. */
  const MarkerLead: string := "Read the whole discussion on "
  const MarkerTail: string := " this week"
  const MarkerLine: string := MarkerLead + "REDDIT" + MarkerTail

  /** The upper-case mention is found by the case-insensitive test. */
  lemma MarkerLineFacts()
    ensures Trimmed(MarkerLine) && |MarkerLine| == 45
    ensures Contains(Lower(MarkerLine), LineMarker)
  {
    assert MarkerLine[0] == MarkerLead[0] && MarkerLine[44] == MarkerTail[|MarkerTail| - 1];
    LowerConcat(MarkerLead + "REDDIT", MarkerTail);
    LowerConcat(MarkerLead, "REDDIT");
    var up: string := "REDDIT";
    assert Lower(up) == LineMarker by {
      assert Lower(up)[0] == 'r' && Lower(up)[1] == 'e' && Lower(up)[2] == 'd';
      assert Lower(up)[3] == 'd' && Lower(up)[4] == 'i' && Lower(up)[5] == 't';
    }
    assert OccursAt(LineMarker, LineMarker, 0);
    ContainsRight(Lower(MarkerLead), LineMarker, LineMarker);
    ContainsLeft(Lower(MarkerLead) + LineMarker, Lower(MarkerTail), LineMarker);
  }

  /** "Visit Reddit for more" is dropped; a 45-character line that says
      REDDIT is dropped for the marker alone, its stripped length being over
      the limit; a 51-character sentence without the marker is kept. */
  lemma CleanerExamples()
    ensures !KeepLine("Visit Reddit for more")
    ensures |Strip(MarkerLine)| > MinLineLength && !KeepLine(MarkerLine)
    ensures KeepLine(LongLine)
  {
    MarkerLineFacts();
    LongLineFacts();
    assert 'd' !in Lower(LongLine);
    NoLetterNoMarker(Lower(LongLine));
  }
}
