// `String.prototype.replace` with a global pattern that matches a fixed text,
// as the expander uses it: scan left to right, replace every non-overlapping
// occurrence of the pattern, keep everything in between.
module JsStrings {

  /** `pat` occurs in `s` starting at index `j`. */
  predicate OccursAt(s: string, pat: string, j: int) {
    0 <= j && j + |pat| <= |s| && s[j..j + |pat|] == pat
  }

  predicate Contains(s: string, pat: string) {
    exists j :: 0 <= j <= |s| && OccursAt(s, pat, j)
  }

  /** `s.replace(/pat/g, rep)` for a pattern that matches the literal text `pat`. */
  function ReplaceAll(s: string, pat: string, rep: string): string
    requires pat != []
    decreases |s|
  {
    if |s| < |pat| then s
    else if s[..|pat|] == pat then rep + ReplaceAll(s[|pat|..], pat, rep)
    else [s[0]] + ReplaceAll(s[1..], pat, rep)
  }

  /**
   * The pieces of `s` between the occurrences of `pat` that a left-to-right
   * scan finds (`s.split(pat)`); there is always at least one piece, and the
   * first piece is where `s` starts.
   */
  function Split(s: string, pat: string): (pieces: seq<string>)
    requires pat != []
    ensures |pieces| >= 1 && pieces[0] <= s
    decreases |s|
  {
    if |s| < |pat| then [s]
    else if s[..|pat|] == pat then [""] + Split(s[|pat|..], pat)
    else
      var rest := Split(s[1..], pat);
      [[s[0]] + rest[0]] + rest[1..]
  }

  /** The pieces glued back together with `sep` between neighbours. */
  function Join(pieces: seq<string>, sep: string): string
    requires |pieces| >= 1
    decreases |pieces|
  {
    if |pieces| == 1 then pieces[0] else pieces[0] + sep + Join(pieces[1..], sep)
  }

  lemma JoinExtendHead(x: string, pieces: seq<string>, sep: string)
    requires |pieces| >= 1
    ensures Join([x + pieces[0]] + pieces[1..], sep) == x + Join(pieces, sep)
  {
    var ext := [x + pieces[0]] + pieces[1..];
    if |pieces| > 1 {
      assert ext[1..] == pieces[1..];
    }
  }

  /**
   * Replacing every occurrence is the same as cutting `s` at the occurrences
   * and gluing the pieces back with the replacement in each cut.
   */
  lemma {:induction false} ReplaceAllIsJoin(s: string, pat: string, rep: string)
    requires pat != []
    ensures ReplaceAll(s, pat, rep) == Join(Split(s, pat), rep)
    decreases |s|
  {
    if |s| < |pat| {
    } else if s[..|pat|] == pat {
      ReplaceAllIsJoin(s[|pat|..], pat, rep);
      var rest := Split(s[|pat|..], pat);
      assert ([""] + rest)[1..] == rest;
    } else {
      ReplaceAllIsJoin(s[1..], pat, rep);
      JoinExtendHead([s[0]], Split(s[1..], pat), rep);
    }
  }

  /** Replacing the pattern by itself changes nothing. */
  lemma {:induction false} ReplaceAllSelf(s: string, pat: string)
    requires pat != []
    ensures ReplaceAll(s, pat, pat) == s
    decreases |s|
  {
    if |s| < |pat| {
    } else if s[..|pat|] == pat {
      ReplaceAllSelf(s[|pat|..], pat);
      assert s == s[..|pat|] + s[|pat|..];
    } else {
      ReplaceAllSelf(s[1..], pat);
      assert s == [s[0]] + s[1..];
    }
  }

  /** Gluing the pieces back with the pattern itself gives the original text. */
  lemma SplitJoin(s: string, pat: string)
    requires pat != []
    ensures Join(Split(s, pat), pat) == s
  {
    ReplaceAllIsJoin(s, pat, pat);
    ReplaceAllSelf(s, pat);
  }

  /** No piece contains the pattern: the scan found every occurrence. */
  lemma {:induction false} SplitPiecesFree(s: string, pat: string)
    requires pat != []
    ensures forall i :: 0 <= i < |Split(s, pat)| ==> !Contains(Split(s, pat)[i], pat)
    decreases |s|
  {
    var pieces := Split(s, pat);
    if |s| < |pat| {
      assert pieces == [s];
    } else if s[..|pat|] == pat {
      SplitPiecesFree(s[|pat|..], pat);
      var rest := Split(s[|pat|..], pat);
      assert pieces == [""] + rest;
      forall i | 0 <= i < |pieces| ensures !Contains(pieces[i], pat) {
        if i > 0 {
          assert pieces[i] == rest[i - 1];
        }
      }
    } else {
      SplitPiecesFree(s[1..], pat);
      var rest := Split(s[1..], pat);
      var head := [s[0]] + rest[0];
      assert pieces == [head] + rest[1..];
      assert head <= s;
      forall i | 0 <= i < |pieces| ensures !Contains(pieces[i], pat) {
        if i == 0 {
          if Contains(head, pat) {
            var j :| 0 <= j <= |head| && OccursAt(head, pat, j);
            if j == 0 {
              assert false;
            } else {
              assert rest[0][j - 1..j - 1 + |pat|] == head[j..j + |pat|];
              assert OccursAt(rest[0], pat, j - 1);
              assert false;
            }
          }
        } else {
          assert pieces[i] == rest[i];
        }
      }
    }
  }

  /** An occurrence in the tail is an occurrence one place further in the whole text. */
  lemma OccursAtShift(s: string, pat: string, j: int)
    requires s != [] && 0 <= j
    ensures OccursAt(s[1..], pat, j) <==> OccursAt(s, pat, j + 1)
  {
    if j + |pat| <= |s| - 1 {
      assert s[1..][j..j + |pat|] == s[j + 1..j + 1 + |pat|];
    }
  }

  /** The text contains the pattern exactly when cutting at it gives more than one piece. */
  lemma {:induction false} ContainsIffCut(s: string, pat: string)
    requires pat != []
    ensures Contains(s, pat) <==> |Split(s, pat)| > 1
    decreases |s|
  {
    if |s| < |pat| {
    } else if s[..|pat|] == pat {
      assert OccursAt(s, pat, 0);
    } else {
      ContainsIffCut(s[1..], pat);
      if Contains(s, pat) {
        var j :| 0 <= j <= |s| && OccursAt(s, pat, j);
        assert j != 0;
        OccursAtShift(s, pat, j - 1);
        assert 0 <= j - 1 <= |s[1..]| && OccursAt(s[1..], pat, j - 1);
      }
      if Contains(s[1..], pat) {
        var j :| 0 <= j <= |s| - 1 && OccursAt(s[1..], pat, j);
        OccursAtShift(s, pat, j);
        assert 0 <= j + 1 <= |s| && OccursAt(s, pat, j + 1);
      }
    }
  }

  /** A text without the pattern comes back unchanged. */
  lemma {:induction false} ReplaceAllAbsent(s: string, pat: string, rep: string)
    requires pat != []
    requires !Contains(s, pat)
    ensures ReplaceAll(s, pat, rep) == s
  {
    ContainsIffCut(s, pat);
    ReplaceAllIsJoin(s, pat, rep);
    SplitJoin(s, pat);
  }

  /** A first character that cannot start the pattern is copied and the scan moves on. */
  lemma ReplaceAllStep(s: string, pat: string, rep: string)
    requires pat != [] && s != [] && s[0] != pat[0]
    ensures ReplaceAll(s, pat, rep) == [s[0]] + ReplaceAll(s[1..], pat, rep)
  {
    if |s| >= |pat| {
      assert s[..|pat|][0] != pat[0];
    }
    ReplaceAllMiss(s, pat, rep);
  }

  /** Where the pattern does not start, the first character is copied and the scan moves on. */
  lemma ReplaceAllMiss(s: string, pat: string, rep: string)
    requires pat != [] && s != []
    requires |s| >= |pat| ==> s[..|pat|] != pat
    ensures ReplaceAll(s, pat, rep) == [s[0]] + ReplaceAll(s[1..], pat, rep)
  {
  }

  /** A prefix that cannot start an occurrence is copied through unchanged. */
  lemma {:induction false} ReplaceAllSkip(x: string, y: string, pat: string, rep: string)
    requires pat != []
    requires forall i :: 0 <= i < |x| ==> x[i] != pat[0]
    ensures ReplaceAll(x + y, pat, rep) == x + ReplaceAll(y, pat, rep)
    decreases |x|
  {
    if x == [] {
      assert x + y == y;
    } else {
      var s := x + y;
      assert s[0] == x[0];
      ReplaceAllStep(s, pat, rep);
      assert s[1..] == x[1..] + y;
      ReplaceAllSkip(x[1..], y, pat, rep);
      assert x == [x[0]] + x[1..];
    }
  }

  /** An occurrence at the front is replaced and the scan resumes after it. */
  lemma ReplaceAllHit(y: string, pat: string, rep: string)
    requires pat != []
    ensures ReplaceAll(pat + y, pat, rep) == rep + ReplaceAll(y, pat, rep)
  {
    var s := pat + y;
    assert s[..|pat|] == pat;
    assert s[|pat|..] == y;
  }
}
