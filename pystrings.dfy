/** The Python `str` operations the core relies on: `split`, `replace(pat, "")`, slicing, `find`. */
module PyStrings {

  predicate StartsWith(s: string, pat: string)
  {
    |pat| <= |s| && s[..|pat|] == pat
  }

  predicate EndsWith(s: string, pat: string)
  {
    |pat| <= |s| && s[|s| - |pat|..] == pat
  }

  /** `pat` occurs in `s` at some position. */
  predicate Contains(s: string, pat: string)
  {
    exists i :: 0 <= i <= |s| && StartsWith(s[i..], pat)
  }

  /** `s.split(sep)` for a non-empty separator: the pieces between left-to-right occurrences. */
  function Split(s: string, sep: string): (r: seq<string>)
    requires sep != []
    ensures |r| >= 1
    decreases |s|
  {
    if StartsWith(s, sep) then [""] + Split(s[|sep|..], sep)
    else if s == [] then [""]
    else
      var t := Split(s[1..], sep);
      [[s[0]] + t[0]] + t[1..]
  }

  /** `sep.join(parts)`. */
  function Join(parts: seq<string>, sep: string): string
  {
    if |parts| == 0 then ""
    else if |parts| == 1 then parts[0]
    else parts[0] + sep + Join(parts[1..], sep)
  }

  /**
   * `s.replace(pat, "")`: every left-to-right occurrence of `pat` deleted, so the result
   * is no longer than `s` and holds only characters of `s`.
   */
  function RemoveAll(s: string, pat: string): (r: string)
    ensures |r| <= |s|
    ensures forall c :: c in r ==> c in s
    decreases |s|
  {
    if pat == [] then s
    else if StartsWith(s, pat) then RemoveAll(s[|pat|..], pat)
    else if s == [] then s
    else [s[0]] + RemoveAll(s[1..], pat)
  }

  /** `s[:-n]` for n > 0: everything but the last n characters (empty if s is shorter). */
  function DropLast(s: string, n: nat): (r: string)
  {
    if |s| >= n then s[..|s| - n] else ""
  }

  /** `s.find(pat, -len(pat)) > -1`: `pat` occurs in the last len(pat) characters. */
  predicate FoundInTail(s: string, pat: string)
  {
    var start := if |s| >= |pat| then |s| - |pat| else 0;
    Contains(s[start..], pat)
  }

  /** Searching the tail of width len(pat) succeeds exactly when `s` ends with `pat`. */
  lemma FoundInTailIsEndsWith(s: string, pat: string)
    ensures FoundInTail(s, pat) <==> EndsWith(s, pat)
  {
    var start := if |s| >= |pat| then |s| - |pat| else 0;
    var tail := s[start..];
    if EndsWith(s, pat) {
      assert StartsWith(tail[0..], pat);
    }
    if FoundInTail(s, pat) {
      var i :| 0 <= i <= |tail| && StartsWith(tail[i..], pat);
      assert i == 0;
    }
  }

  lemma JoinCons(parts: seq<string>, sep: string)
    requires |parts| >= 2
    ensures Join(parts, sep) == parts[0] + sep + Join(parts[1..], sep)
  {
  }

  /** Splitting and joining again with the same separator gives the original text. */
  lemma {:induction false} SplitJoin(s: string, sep: string)
    requires sep != []
    ensures Join(Split(s, sep), sep) == s
    decreases |s|
  {
    if StartsWith(s, sep) {
      var rest := s[|sep|..];
      SplitJoin(rest, sep);
      SplitJoinAtSeparator(s, sep);
    } else if s != [] {
      SplitJoin(s[1..], sep);
      SplitJoinAtChar(s, sep);
    }
  }

  /** One step of SplitJoin where `s` starts with the separator. */
  lemma SplitJoinAtSeparator(s: string, sep: string)
    requires sep != [] && StartsWith(s, sep)
    requires Join(Split(s[|sep|..], sep), sep) == s[|sep|..]
    ensures Join(Split(s, sep), sep) == s
  {
    var t := Split(s[|sep|..], sep);
    assert Split(s, sep) == [""] + t;
    JoinEmptyHead(t, sep);
    SeparatorThenRest(s, sep);
  }

  /** Joining with an empty first piece puts the separator in front. */
  lemma JoinEmptyHead(t: seq<string>, sep: string)
    requires |t| >= 1
    ensures Join([""] + t, sep) == sep + Join(t, sep)
  {
    var parts := [""] + t;
    assert parts[1..] == t;
    JoinCons(parts, sep);
  }

  /** A text that starts with the separator is the separator followed by the rest. */
  lemma SeparatorThenRest(s: string, sep: string)
    requires StartsWith(s, sep)
    ensures sep + s[|sep|..] == s
  {
    assert s == s[..|sep|] + s[|sep|..];
  }

  /** One step of SplitJoin where `s` starts with an ordinary character. */
  lemma SplitJoinAtChar(s: string, sep: string)
    requires sep != [] && !StartsWith(s, sep) && s != []
    requires Join(Split(s[1..], sep), sep) == s[1..]
    ensures Join(Split(s, sep), sep) == s
  {
    var t := Split(s[1..], sep);
    assert Split(s, sep) == [[s[0]] + t[0]] + t[1..];
    JoinHead(s[0], t, sep);
    assert s == [s[0]] + s[1..];
  }

  /** Prefixing the first piece prefixes the joined text. */
  lemma JoinHead(c: char, t: seq<string>, sep: string)
    requires |t| >= 1
    ensures Join([[c] + t[0]] + t[1..], sep) == [c] + Join(t, sep)
  {
    var r := [[c] + t[0]] + t[1..];
    if |t| >= 2 {
      JoinCons(t, sep);
      JoinCons(r, sep);
      assert r[1..] == t[1..];
      assert r[0] == [c] + t[0];
      var tail := Join(t[1..], sep);
      assert ([c] + t[0]) + sep + tail == [c] + (t[0] + sep + tail);
    }
  }

  /** With a one-character separator no piece contains that character. */
  lemma {:induction false} SplitPiecesFree(s: string, c: char)
    ensures forall k :: 0 <= k < |Split(s, [c])| ==> c !in Split(s, [c])[k]
    decreases |s|
  {
    var sep := [c];
    if StartsWith(s, sep) {
      SplitPiecesFree(s[1..], c);
    } else if s == [] {
    } else {
      SplitPiecesFree(s[1..], c);
      assert s[0] != c by { assert s[..1] == [s[0]]; }
    }
  }

  /** With a one-character separator there is a single piece exactly when the character is absent. */
  lemma SplitSinglePiece(s: string, c: char)
    ensures |Split(s, [c])| == 1 <==> c !in s
  {
    var r := Split(s, [c]);
    SplitJoin(s, [c]);
    SplitPiecesFree(s, c);
    if |r| > 1 {
      JoinCons(r, [c]);
      assert s[|r[0]|] == c;
    }
  }

  lemma {:induction false} JoinSnoc(parts: seq<string>, sep: string)
    requires |parts| >= 2
    ensures Join(parts, sep) == Join(parts[..|parts| - 1], sep) + sep + parts[|parts| - 1]
    decreases |parts|
  {
    if |parts| > 2 {
      JoinSnoc(parts[1..], sep);
      assert parts[1..][..|parts| - 2] == parts[..|parts| - 1][1..];
    }
  }

  /**
   * `s.split(c)[0]` is the text before the first `c`: a prefix of `s` free of `c`,
   * followed in `s` by `c` unless it is all of `s`.
   */
  lemma FirstPiece(s: string, c: char)
    ensures |Split(s, [c])[0]| <= |s|
    ensures var r := Split(s, [c])[0];
      c !in r && r == s[..|r|] && (|r| < |s| ==> s[|r|] == c)
  {
    var parts := Split(s, [c]);
    SplitJoin(s, [c]);
    SplitPiecesFree(s, c);
    if |parts| > 1 {
      JoinCons(parts, [c]);
    }
  }

  /**
   * `s.split(c)[-1]` is the text after the last `c`: a suffix of `s` free of `c`,
   * preceded in `s` by `c` unless it is all of `s`.
   */
  lemma LastPiece(s: string, c: char)
    ensures |Split(s, [c])[|Split(s, [c])| - 1]| <= |s|
    ensures var parts := Split(s, [c]); var r := parts[|parts| - 1];
      c !in r && r == s[|s| - |r|..] && (|r| < |s| ==> s[|s| - |r| - 1] == c)
  {
    var parts := Split(s, [c]);
    SplitJoin(s, [c]);
    SplitPiecesFree(s, c);
    if |parts| > 1 {
      JoinSnoc(parts, [c]);
    }
  }

  /** Deleting every occurrence is splitting on the pattern and joining the pieces directly. */
  lemma {:induction false} RemoveAllIsSplitJoin(s: string, pat: string)
    requires pat != []
    ensures RemoveAll(s, pat) == Join(Split(s, pat), "")
    decreases |s|
  {
    if StartsWith(s, pat) {
      RemoveAllIsSplitJoin(s[|pat|..], pat);
      RemoveAllAtPattern(s, pat);
    } else if s != [] {
      RemoveAllIsSplitJoin(s[1..], pat);
      RemoveAllAtChar(s, pat);
    }
  }

  /** One step of RemoveAllIsSplitJoin where `s` starts with the pattern. */
  lemma RemoveAllAtPattern(s: string, pat: string)
    requires pat != [] && StartsWith(s, pat)
    requires RemoveAll(s[|pat|..], pat) == Join(Split(s[|pat|..], pat), "")
    ensures RemoveAll(s, pat) == Join(Split(s, pat), "")
  {
    var t := Split(s[|pat|..], pat);
    assert Split(s, pat) == [""] + t;
    JoinEmptyHead(t, "");
    assert "" + Join(t, "") == Join(t, "");
  }

  /** One step of RemoveAllIsSplitJoin where `s` starts with an ordinary character. */
  lemma RemoveAllAtChar(s: string, pat: string)
    requires pat != [] && !StartsWith(s, pat) && s != []
    requires RemoveAll(s[1..], pat) == Join(Split(s[1..], pat), "")
    ensures RemoveAll(s, pat) == Join(Split(s, pat), "")
  {
    var t := Split(s[1..], pat);
    assert Split(s, pat) == [[s[0]] + t[0]] + t[1..];
    JoinHead(s[0], t, "");
  }

  /** Text in which the pattern never starts is left alone. */
  lemma {:induction false} RemoveAllAbsent(s: string, pat: string)
    requires forall i :: 0 <= i <= |s| ==> !StartsWith(s[i..], pat)
    ensures RemoveAll(s, pat) == s
    decreases |s|
  {
    if pat != [] && s != [] {
      assert !StartsWith(s[0..], pat);
      forall i | 0 <= i <= |s[1..]| ensures !StartsWith(s[1..][i..], pat) {
        assert s[1..][i..] == s[i + 1..];
      }
      RemoveAllAbsent(s[1..], pat);
    }
  }

  /** A leading occurrence is deleted and the rest, free of the pattern, is kept. */
  lemma RemoveAllLeading(pat: string, y: string)
    requires pat != []
    requires forall i :: 0 <= i <= |y| ==> !StartsWith(y[i..], pat)
    ensures RemoveAll(pat + y, pat) == y
  {
    assert (pat + y)[..|pat|] == pat;
    assert (pat + y)[|pat|..] == y;
    RemoveAllAbsent(y, pat);
  }

  /**
   * A trailing occurrence is deleted when it is the first place in `x + pat`
   * where the pattern starts.
   */
  lemma {:induction false} RemoveAllTrailing(x: string, pat: string)
    requires pat != []
    requires forall i :: 0 <= i < |x| ==> !StartsWith((x + pat)[i..], pat)
    ensures RemoveAll(x + pat, pat) == x
    decreases |x|
  {
    if x == [] {
      assert x + pat == pat;
      assert pat[|pat|..] == [];
    } else {
      var s := x + pat;
      assert !StartsWith(s[0..], pat);
      assert s[1..] == x[1..] + pat;
      forall i | 0 <= i < |x[1..]| ensures !StartsWith((x[1..] + pat)[i..], pat) {
        assert (x[1..] + pat)[i..] == s[i + 1..];
      }
      RemoveAllTrailing(x[1..], pat);
      assert s == [x[0]] + (x[1..] + pat);
    }
  }
}
