/**
 Plain-text operations the plugin relies on, as Python performs them on
 `str` values: `sep.join(parts)`, `s.split(pat)` and `s.replace(pat, rep)`.
 A `re.sub` whose pattern is an escaped literal behaves as `replace`, so
 the congestion-map patch is stated in terms of these three as well.
 */
module Text {

  /** `pat` occurs in `s` starting at index `j`. */
  predicate MatchAt(s: string, j: int, pat: string) {
    0 <= j && j + |pat| <= |s| && s[j..j + |pat|] == pat
  }

  /** `pat` occurs somewhere in `s`. */
  predicate Occurs(s: string, pat: string) {
    exists j :: 0 <= j <= |s| && MatchAt(s, j, pat)
  }

  /** Python's `sep.join(parts)`: the parts in order with `sep` between
      neighbours; the empty list joins to the empty string. */
  function Join(parts: seq<string>, sep: string): (r: string)
    ensures |parts| >= 1 ==> |r| >= |parts[0]| && r[..|parts[0]|] == parts[0]
  {
    if |parts| == 0 then []
    else if |parts| == 1 then parts[0]
    else parts[0] + sep + Join(parts[1..], sep)
  }

  /** Python's `s.replace(pat, rep)`: scan left to right, replace the
      leftmost occurrence, resume after it. */
  function ReplaceAll(s: string, pat: string, rep: string): (r: string)
    requires |pat| > 0
    ensures |rep| <= |pat| ==> |r| <= |s|
    ensures |rep| >= |pat| ==> |r| >= |s|
    decreases |s|
  {
    if |s| < |pat| then s
    else if s[..|pat|] == pat then rep + ReplaceAll(s[|pat|..], pat, rep)
    else [s[0]] + ReplaceAll(s[1..], pat, rep)
  }

  /** A match one position into `s` is a match in its tail. */
  lemma MatchAtTail(s: string, j: int, pat: string)
    requires |s| >= 1 && j >= 1
    ensures MatchAt(s, j, pat) <==> MatchAt(s[1..], j - 1, pat)
  {
    if j + |pat| <= |s| {
      var a, b := s[j..j + |pat|], s[1..][j - 1..j - 1 + |pat|];
      forall k | 0 <= k < |pat| ensures a[k] == b[k] {
        assert a[k] == s[j + k] == b[k];
      }
      assert a == b;
    }
  }

  /** A prefix of `s` that holds no match of `s` contains no occurrence. */
  lemma NoMatchInPrefix(s: string, k: int, pat: string)
    requires |pat| > 0 && 0 <= k <= |s|
    requires forall j :: 0 <= j < k ==> !MatchAt(s, j, pat)
    ensures !Occurs(s[..k], pat)
  {
    forall j | 0 <= j <= k ensures !MatchAt(s[..k], j, pat) {
      if j + |pat| <= k {
        assert s[..k][j..j + |pat|] == s[j..j + |pat|];
        assert !MatchAt(s, j, pat);
      }
    }
  }

  /** Python's `s.split(pat)`: the text between consecutive leftmost,
      non-overlapping occurrences of `pat`. No part contains `pat`; the
      first cut falls at the leftmost occurrence, so the first part is the
      text before it, or the whole text when there is none. */
  function Split(s: string, pat: string): (parts: seq<string>)
    requires |pat| > 0
    ensures |parts| >= 1
    ensures |parts[0]| <= |s| && parts[0] == s[..|parts[0]|]
    ensures forall i :: 0 <= i < |parts| ==> !Occurs(parts[i], pat)
    ensures forall j :: 0 <= j < |parts[0]| ==> !MatchAt(s, j, pat)
    ensures |parts| >= 2 ==> MatchAt(s, |parts[0]|, pat)
    ensures |parts| == 1 ==> parts[0] == s
    decreases |s|
  {
    if |s| < |pat| then
      assert !Occurs(s, pat) by {
        forall j | 0 <= j <= |s| ensures !MatchAt(s, j, pat) { }
      }
      [s]
    else if s[..|pat|] == pat then
      assert MatchAt(s, 0, pat);
      [[]] + Split(s[|pat|..], pat)
    else
      var rest := Split(s[1..], pat);
      var head := [s[0]] + rest[0];
      assert head == s[..|head|];
      assert !MatchAt(s, 0, pat);
      forall j | 1 <= j < |head| ensures !MatchAt(s, j, pat) {
        MatchAtTail(s, j, pat);
      }
      NoMatchInPrefix(s, |head|, pat);
      assert |rest| >= 2 ==> MatchAt(s, |head|, pat) by {
        MatchAtTail(s, |head|, pat);
      }
      assert |rest| == 1 ==> head == s by {
        assert s == [s[0]] + s[1..];
      }
      [head] + rest[1..]
  }

  /** The number of leftmost, non-overlapping occurrences of `pat` in `s`,
      which is what `replace` rewrites and `count` reports. */
  function Count(s: string, pat: string): nat
    requires |pat| > 0
  {
    |Split(s, pat)| - 1
  }

  /** `replace` leaves a text without the pattern alone. */
  lemma ReplaceAllWithoutOccurrence(s: string, pat: string, rep: string)
    requires |pat| > 0 && !Occurs(s, pat)
    ensures ReplaceAll(s, pat, rep) == s
  {
    SplitNoOccurrence(s, pat);
    ReplaceAllIsJoinOfSplit(s, pat, rep);
  }

  /** Sum of the lengths of `parts`. */
  function TotalLength(parts: seq<string>): nat
  {
    if |parts| == 0 then 0 else |parts[0]| + TotalLength(parts[1..])
  }

  // ---------------------------------------------------------------------------
  // Join

  /** Gluing a character onto the first part glues it onto the joined text. */
  lemma JoinConsHead(c: char, rest: seq<string>, sep: string)
    requires |rest| >= 1
    ensures Join([[c] + rest[0]] + rest[1..], sep) == [c] + Join(rest, sep)
  {
    var parts := [[c] + rest[0]] + rest[1..];
    if |rest| >= 2 {
      assert parts[1..] == rest[1..];
    }
  }

  /** A joined text is as long as its parts plus one separator between each
      pair of neighbours. */
  lemma {:induction false} JoinLength(parts: seq<string>, sep: string)
    requires |parts| >= 1
    ensures |Join(parts, sep)| == TotalLength(parts) + (|parts| - 1) * |sep|
    decreases |parts|
  {
    if |parts| >= 2 {
      JoinLength(parts[1..], sep);
    }
  }

  /** Joining one more part adds a separator and the part at the end. */
  lemma {:induction false} JoinSnoc(parts: seq<string>, x: string, sep: string)
    requires |parts| >= 1
    ensures Join(parts + [x], sep) == Join(parts, sep) + sep + x
    decreases |parts|
  {
    if |parts| == 1 {
      assert (parts + [x])[1..] == [x];
    } else {
      assert (parts + [x])[1..] == parts[1..] + [x];
      JoinSnoc(parts[1..], x, sep);
    }
  }

  /** The parts of a join appear, in order, between the separators. */
  lemma JoinTwoOrMore(x: string, rest: seq<string>, sep: string)
    requires |rest| >= 1
    ensures Join([x] + rest, sep) == x + sep + Join(rest, sep)
  {
    assert ([x] + rest)[1..] == rest;
  }

  // ---------------------------------------------------------------------------
  // Split and replace

  /** Text in which `pat` does not occur splits into itself alone. */
  lemma {:induction false} SplitNoOccurrence(s: string, pat: string)
    requires |pat| > 0
    requires !Occurs(s, pat)
    ensures Split(s, pat) == [s]
    decreases |s|
  {
    if |s| >= |pat| {
      assert !MatchAt(s, 0, pat);
      assert !Occurs(s[1..], pat) by {
        forall j | 0 <= j <= |s[1..]| ensures !MatchAt(s[1..], j, pat) {
          if j + |pat| <= |s[1..]| {
            assert s[1..][j..j + |pat|] == s[j + 1..j + 1 + |pat|];
            assert !MatchAt(s, j + 1, pat);
          }
        }
      }
      SplitNoOccurrence(s[1..], pat);
      assert [s[0]] + s[1..] == s;
    }
  }

  /** When the first occurrence of `pat` in `x + pat + y` is the one right
      after `x`, splitting yields `x` followed by the parts of `y`. */
  lemma {:induction false} SplitAtFirst(x: string, pat: string, y: string)
    requires |pat| > 0
    requires forall j :: 0 <= j < |x| ==> !MatchAt(x + pat + y, j, pat)
    ensures Split(x + pat + y, pat) == [x] + Split(y, pat)
    decreases |x|
  {
    var s := x + pat + y;
    if |x| == 0 {
      assert s[..|pat|] == pat;
      assert s[|pat|..] == y;
    } else {
      assert !MatchAt(s, 0, pat);
      assert s[1..] == x[1..] + pat + y;
      forall j | 0 <= j < |x[1..]| ensures !MatchAt(x[1..] + pat + y, j, pat) {
        assert !MatchAt(s, j + 1, pat);
        assert s[j + 1..j + 1 + |pat|] == s[1..][j..j + |pat|];
      }
      SplitAtFirst(x[1..], pat, y);
      assert [x[0]] + x[1..] == x;
    }
  }

  /** `pat` occurs exactly once in `x + pat + y` when some character of
      `pat` appears neither in `x`, nor in `y`, nor earlier in `pat`. */
  lemma SplitUniqueByMarker(x: string, pat: string, y: string, k: nat)
    requires k < |pat|
    requires pat[k] !in x && pat[k] !in y && pat[k] !in pat[..k]
    ensures Split(x + pat + y, pat) == [x, y]
    ensures Count(x + pat + y, pat) == 1
  {
    var s := x + pat + y;
    forall j | 0 <= j < |x| ensures !MatchAt(s, j, pat) {
      if j + k < |x| {
        assert s[j + k] == x[j + k];
      } else {
        assert s[j + k] == pat[j + k - |x|];
        assert pat[..k][j + k - |x|] == pat[j + k - |x|];
      }
      assert s[j + k] != pat[k];
    }
    assert !Occurs(y, pat) by {
      forall j | 0 <= j <= |y| ensures !MatchAt(y, j, pat) {
        if j + k < |y| {
          assert y[j + k] != pat[k];
        }
      }
    }
    SplitAtFirst(x, pat, y);
    SplitNoOccurrence(y, pat);
  }

  /** The reference reading of `replace`: cut the text at the occurrences
      and glue the pieces back with the replacement. */
  lemma {:induction false} ReplaceAllIsJoinOfSplit(s: string, pat: string, rep: string)
    requires |pat| > 0
    ensures ReplaceAll(s, pat, rep) == Join(Split(s, pat), rep)
    decreases |s|
  {
    if |s| < |pat| {
    } else if s[..|pat|] == pat {
      ReplaceAllIsJoinOfSplit(s[|pat|..], pat, rep);
      JoinTwoOrMore([], Split(s[|pat|..], pat), rep);
    } else {
      ReplaceAllIsJoinOfSplit(s[1..], pat, rep);
      JoinConsHead(s[0], Split(s[1..], pat), rep);
    }
  }

  /** Replacing a pattern by itself changes nothing. */
  lemma {:induction false} ReplaceAllIdentity(s: string, pat: string)
    requires |pat| > 0
    ensures ReplaceAll(s, pat, pat) == s
    decreases |s|
  {
    if |s| < |pat| {
    } else if s[..|pat|] == pat {
      ReplaceAllIdentity(s[|pat|..], pat);
      assert s[..|pat|] + s[|pat|..] == s;
    } else {
      ReplaceAllIdentity(s[1..], pat);
      assert [s[0]] + s[1..] == s;
    }
  }

  /** Round trip: joining the parts of a split with the same pattern gives
      back the original text. */
  lemma JoinOfSplit(s: string, pat: string)
    requires |pat| > 0
    ensures Join(Split(s, pat), pat) == s
  {
    ReplaceAllIsJoinOfSplit(s, pat, pat);
    ReplaceAllIdentity(s, pat);
  }

  /** Round trip the other way: splitting a join by a one-character
      separator that no part contains gives back the parts. */
  lemma {:induction false} SplitOfJoin(parts: seq<string>, sep: string)
    requires |sep| == 1 && |parts| >= 1
    requires forall i :: 0 <= i < |parts| ==> sep[0] !in parts[i]
    ensures Split(Join(parts, sep), sep) == parts
    decreases |parts|
  {
    if |parts| == 1 {
      assert !Occurs(parts[0], sep) by {
        forall j | 0 <= j <= |parts[0]| ensures !MatchAt(parts[0], j, sep) {
          if j < |parts[0]| {
            assert parts[0][j] != sep[0];
          }
        }
      }
      SplitNoOccurrence(parts[0], sep);
    } else {
      var x, rest := parts[0], parts[1..];
      JoinTwoOrMore(x, rest, sep);
      forall j | 0 <= j < |x| ensures !MatchAt(x + sep + Join(rest, sep), j, sep) {
        assert (x + sep + Join(rest, sep))[j] == x[j];
      }
      SplitAtFirst(x, sep, Join(rest, sep));
      SplitOfJoin(rest, sep);
      assert [x] + rest == parts;
    }
  }

  /** Every occurrence trades `|pat|` characters for `|rep|` characters;
      the rest of the text keeps its length. */
  lemma ReplaceAllLength(s: string, pat: string, rep: string)
    requires |pat| > 0
    ensures |ReplaceAll(s, pat, rep)| == |s| + Count(s, pat) * (|rep| - |pat|)
  {
    var parts := Split(s, pat);
    ReplaceAllIsJoinOfSplit(s, pat, rep);
    JoinOfSplit(s, pat);
    JoinLength(parts, rep);
    JoinLength(parts, pat);
    assert (|parts| - 1) * |rep| - (|parts| - 1) * |pat| == (|parts| - 1) * (|rep| - |pat|);
  }

  /** `replace` leaves the text alone exactly when the pattern is absent,
      provided the replacement differs in length from the pattern. */
  lemma ReplaceAllUnchangedIff(s: string, pat: string, rep: string)
    requires |pat| > 0 && |rep| != |pat|
    ensures ReplaceAll(s, pat, rep) == s <==> !Occurs(s, pat)
  {
    if !Occurs(s, pat) {
      SplitNoOccurrence(s, pat);
      ReplaceAllIsJoinOfSplit(s, pat, rep);
    } else {
      var j :| 0 <= j <= |s| && MatchAt(s, j, pat);
      CountPositiveWhenOccurs(s, pat, j);
      ReplaceAllLength(s, pat, rep);
      ProductNonZero(Count(s, pat), |rep| - |pat|);
    }
  }

  /** The three facts above, together. */
  lemma ReplaceAllFacts(s: string, pat: string, rep: string)
    requires |pat| > 0
    ensures ReplaceAll(s, pat, rep) == Join(Split(s, pat), rep)
    ensures |ReplaceAll(s, pat, rep)| == |s| + Count(s, pat) * (|rep| - |pat|)
    ensures |rep| != |pat| ==> (ReplaceAll(s, pat, rep) == s <==> !Occurs(s, pat))
  {
    ReplaceAllIsJoinOfSplit(s, pat, rep);
    ReplaceAllLength(s, pat, rep);
    if |rep| != |pat| {
      ReplaceAllUnchangedIff(s, pat, rep);
    }
  }

  lemma ProductNonZero(c: int, d: int)
    requires c >= 1 && d != 0
    ensures c * d != 0
  {
    if d > 0 {
      assert c * d >= d;
    } else {
      assert c * d <= d;
    }
  }

  /** An occurrence anywhere is found by the split. */
  lemma CountPositiveWhenOccurs(s: string, pat: string, j: int)
    requires |pat| > 0 && MatchAt(s, j, pat)
    ensures Count(s, pat) >= 1
  {
    JoinOfSplit(s, pat);
    assert Occurs(s, pat);
    assert !Occurs(Split(s, pat)[0], pat);
  }
}
