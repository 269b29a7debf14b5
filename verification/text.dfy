/**
 * Description normalisation: every run of three or more consecutive
 * newlines collapses to exactly two (at most one empty line between
 * paragraphs); everything else is kept.
 */
module Text {

  /** The number of newlines `s` starts with. */
  function LeadingNewlines(s: string): (n: nat)
    ensures n <= |s|
    ensures forall i :: 0 <= i < n ==> s[i] == '\n'
    ensures n < |s| ==> s[n] != '\n'
  {
    if |s| == 0 || s[0] != '\n' then 0 else 1 + LeadingNewlines(s[1..])
  }

  /** Whether three newlines start at position `i` of `s`. */
  predicate TripleAt(s: string, i: int) {
    0 <= i && i + 3 <= |s| && s[i] == '\n' && s[i + 1] == '\n' && s[i + 2] == '\n'
  }

  /** Whether `s` contains the substring "\n\n\n". */
  predicate HasTripleNewline(s: string) {
    exists i :: 0 <= i < |s| && TripleAt(s, i)
  }

  /**
   * `text.replaceAll(/\n{3,}/g, '\n\n')`: the pattern is tried at each
   * position from the left; where at least three newlines start, the greedy
   * match takes the whole run, two newlines are emitted and the scan resumes
   * after the run; elsewhere one character is copied.
   */
  function NormalizeDescription(s: string): (r: string)
    ensures |r| <= |s|
    ensures |r| == 0 <==> |s| == 0
    decreases |s|
  {
    if |s| == 0 then []
    else if LeadingNewlines(s) >= 3 then "\n\n" + NormalizeDescription(s[LeadingNewlines(s)..])
    else [s[0]] + NormalizeDescription(s[1..])
  }

  /**
   * Reference definition by maximal runs: a run of k newlines becomes two
   * when k >= 3 and stays as it is when k is 1 or 2; other characters are
   * copied.
   */
  function CollapseRuns(s: string): string
    decreases |s|
  {
    if |s| == 0 then []
    else if s[0] != '\n' then [s[0]] + CollapseRuns(s[1..])
    else
      var k := LeadingNewlines(s);
      (if k >= 3 then "\n\n" else s[..k]) + CollapseRuns(s[k..])
  }

  /** `s` with every newline deleted. */
  function StripNewlines(s: string): (r: string)
    ensures '\n' !in r
  {
    if |s| == 0 then []
    else if s[0] == '\n' then StripNewlines(s[1..])
    else [s[0]] + StripNewlines(s[1..])
  }

  // ---------------------------------------------------------------------------
  // Helper facts about leading newlines and triples

  lemma LeadingNewlinesOfTail(s: string)
    requires |s| > 0 && s[0] == '\n'
    ensures LeadingNewlines(s[1..]) == LeadingNewlines(s) - 1
  {
  }

  lemma LeadingNewlinesOfPrefixed(p: string, x: string)
    requires forall i :: 0 <= i < |p| ==> p[i] == '\n'
    ensures LeadingNewlines(p + x) == |p| + LeadingNewlines(x)
    decreases |p|
  {
    if |p| > 0 {
      assert (p + x)[1..] == p[1..] + x;
      LeadingNewlinesOfPrefixed(p[1..], x);
    } else {
      assert p + x == x;
    }
  }

  /** A triple in `[c] + x` is a triple of `x` or starts at `c`. */
  lemma TripleAfterChar(c: char, x: string)
    requires HasTripleNewline([c] + x)
    ensures HasTripleNewline(x) || (c == '\n' && LeadingNewlines(x) >= 2)
  {
    var s := [c] + x;
    var i :| 0 <= i < |s| && TripleAt(s, i);
    if i >= 1 {
      assert TripleAt(x, i - 1);
    } else {
      assert s[0] == '\n' && s[1] == '\n' && s[2] == '\n';
      assert x[0] == '\n' && x[1] == '\n';
      assert LeadingNewlines(x) == 1 + LeadingNewlines(x[1..]);
    }
  }

  /** A triple in `"\n\n" + x` is a triple of `x` or needs `x` to start with a newline. */
  lemma TripleAfterPair(x: string)
    requires HasTripleNewline("\n\n" + x)
    ensures HasTripleNewline(x) || LeadingNewlines(x) >= 1
  {
    var s := "\n\n" + x;
    var i :| 0 <= i < |s| && TripleAt(s, i);
    if i >= 2 {
      assert TripleAt(x, i - 2);
    } else {
      assert s[2] == '\n';
      assert x[0] == '\n';
    }
  }

  lemma TripleInTail(s: string)
    requires |s| > 0 && HasTripleNewline(s[1..])
    ensures HasTripleNewline(s)
  {
    var t := s[1..];
    var i :| 0 <= i < |t| && TripleAt(t, i);
    assert TripleAt(s, i + 1);
  }

  lemma TripleAtStart(s: string)
    requires LeadingNewlines(s) >= 3
    ensures HasTripleNewline(s)
  {
    assert TripleAt(s, 0);
  }

  // ---------------------------------------------------------------------------
  // Properties of NormalizeDescription

  /** A leading run of k newlines comes out as two newlines when k >= 3, unchanged otherwise. */
  lemma {:induction false} LeadingNewlinesOfNormalized(s: string)
    ensures LeadingNewlines(NormalizeDescription(s))
            == (if LeadingNewlines(s) >= 3 then 2 else LeadingNewlines(s))
    decreases |s|
  {
    if |s| == 0 {
    } else if LeadingNewlines(s) >= 3 {
      var k := LeadingNewlines(s);
      LeadingNewlinesOfNormalized(s[k..]);
      assert LeadingNewlines(s[k..]) == 0;
      LeadingNewlinesOfPrefixed("\n\n", NormalizeDescription(s[k..]));
    } else if s[0] != '\n' {
      assert NormalizeDescription(s)[0] == s[0];
    } else {
      LeadingNewlinesOfTail(s);
      LeadingNewlinesOfNormalized(s[1..]);
      LeadingNewlinesOfPrefixed("\n", NormalizeDescription(s[1..]));
    }
  }

  /** The output never contains three consecutive newlines. */
  lemma {:induction false} NormalizedHasNoTriple(s: string)
    ensures !HasTripleNewline(NormalizeDescription(s))
    decreases |s|
  {
    if |s| == 0 {
    } else if LeadingNewlines(s) >= 3 {
      var k := LeadingNewlines(s);
      var x := NormalizeDescription(s[k..]);
      NormalizedHasNoTriple(s[k..]);
      LeadingNewlinesOfNormalized(s[k..]);
      if HasTripleNewline("\n\n" + x) {
        TripleAfterPair(x);
      }
    } else {
      var x := NormalizeDescription(s[1..]);
      NormalizedHasNoTriple(s[1..]);
      if HasTripleNewline([s[0]] + x) {
        TripleAfterChar(s[0], x);
        LeadingNewlinesOfTail(s);
        LeadingNewlinesOfNormalized(s[1..]);
      }
    }
  }

  /** An input without "\n\n\n" is returned unchanged. */
  lemma {:induction false} NormalizeKeepsTripleFree(s: string)
    requires !HasTripleNewline(s)
    ensures NormalizeDescription(s) == s
    decreases |s|
  {
    if |s| > 0 {
      if LeadingNewlines(s) >= 3 {
        TripleAtStart(s);
      }
      if HasTripleNewline(s[1..]) {
        TripleInTail(s);
      }
      NormalizeKeepsTripleFree(s[1..]);
      assert s == [s[0]] + s[1..];
    }
  }

  /** Normalising twice is the same as normalising once. */
  lemma NormalizeIdempotent(s: string)
    ensures NormalizeDescription(NormalizeDescription(s)) == NormalizeDescription(s)
  {
    NormalizedHasNoTriple(s);
    NormalizeKeepsTripleFree(NormalizeDescription(s));
  }

  /** The scanning definition agrees with the run-by-run reference definition. */
  lemma {:induction false} NormalizeCollapsesRuns(s: string)
    ensures NormalizeDescription(s) == CollapseRuns(s)
    decreases |s|
  {
    if |s| == 0 {
    } else if s[0] != '\n' {
      NormalizeCollapsesRuns(s[1..]);
    } else {
      var k := LeadingNewlines(s);
      if k >= 3 {
        NormalizeCollapsesRuns(s[k..]);
      } else {
        NormalizeCollapsesRuns(s[1..]);
        LeadingNewlinesOfTail(s);
        if k == 1 {
          assert s[..1] == [s[0]];
        } else {
          // the tail starts with a run of exactly one newline
          var t := s[1..];
          assert t[0] == '\n' && LeadingNewlines(t) == 1;
          assert CollapseRuns(t) == t[..1] + CollapseRuns(t[1..]);
          assert t[1..] == s[2..];
          assert s[..2] == [s[0]] + t[..1];
        }
      }
    }
  }

  lemma StripNewlinesConcat(a: string, b: string)
    ensures StripNewlines(a + b) == StripNewlines(a) + StripNewlines(b)
    decreases |a|
  {
    if |a| == 0 {
      assert a + b == b;
    } else {
      assert (a + b)[1..] == a[1..] + b;
      StripNewlinesConcat(a[1..], b);
    }
  }

  lemma StripNewlinesOfRun(s: string)
    requires forall i :: 0 <= i < |s| ==> s[i] == '\n'
    ensures StripNewlines(s) == []
    decreases |s|
  {
    if |s| > 0 {
      StripNewlinesOfRun(s[1..]);
    }
  }

  /** Non-newline characters survive in order: deleting all newlines gives the same text. */
  lemma {:induction false} NormalizePreservesText(s: string)
    ensures StripNewlines(NormalizeDescription(s)) == StripNewlines(s)
    decreases |s|
  {
    if |s| == 0 {
    } else if LeadingNewlines(s) >= 3 {
      var k := LeadingNewlines(s);
      NormalizePreservesText(s[k..]);
      StripNewlinesConcat("\n\n", NormalizeDescription(s[k..]));
      StripNewlinesOfRun("\n\n");
      assert s == s[..k] + s[k..];
      StripNewlinesConcat(s[..k], s[k..]);
      StripNewlinesOfRun(s[..k]);
    } else {
      NormalizePreservesText(s[1..]);
      StripNewlinesConcat([s[0]], NormalizeDescription(s[1..]));
      assert s == [s[0]] + s[1..];
      StripNewlinesConcat([s[0]], s[1..]);
    }
  }

  /** A first character that is not a newline is kept. */
  lemma NormalizeKeepsFirst(s: string)
    requires |s| > 0 && s[0] != '\n'
    ensures |NormalizeDescription(s)| > 0 && NormalizeDescription(s)[0] == s[0]
  {
  }

  /** A last character that is not a newline is kept. */
  lemma {:induction false} NormalizeKeepsLast(s: string)
    requires |s| > 0 && s[|s| - 1] != '\n'
    ensures |NormalizeDescription(s)| > 0
    ensures NormalizeDescription(s)[|NormalizeDescription(s)| - 1] == s[|s| - 1]
    decreases |s|
  {
    var r := NormalizeDescription(s);
    if LeadingNewlines(s) >= 3 {
      var k := LeadingNewlines(s);
      NormalizeKeepsLast(s[k..]);
    } else if |s| > 1 {
      NormalizeKeepsLast(s[1..]);
    }
  }
}
