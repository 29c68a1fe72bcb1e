/** Branch-pattern matching (src/access/access-branch-match.ts). Inside one segment a `*` stands for
    any characters; the regular expression the program builds is read for patterns without `?` and
    values without line breaks. */
module BranchGlob {
  import opened Options
  import opened Text

  // ----- splitting

  /** `split(separator)`. */
  function Split(s: string, separator: char): (r: seq<string>)
    ensures |r| > 0
    ensures forall i :: 0 <= i < |r| ==> separator !in r[i]
  {
    if s == "" then [""]
    else
      var front, c := Split(s[..|s| - 1], separator), s[|s| - 1];
      if c == separator then front + [""]
      else front[..|front| - 1] + [front[|front| - 1] + [c]]
  }

  function Join(pieces: seq<string>, separator: char): string
    requires |pieces| > 0
  {
    if |pieces| == 1 then pieces[0] else Join(pieces[..|pieces| - 1], separator) + [separator] + pieces[|pieces| - 1]
  }

  /** Splitting loses nothing. */
  lemma {:induction false} JoinSplit(s: string, separator: char)
    ensures Join(Split(s, separator), separator) == s
  {
    if s != "" {
      var t, c := s[..|s| - 1], s[|s| - 1];
      var front := Split(t, separator);
      JoinSplit(t, separator);
      if c == separator {
        assert Split(s, separator)[..|front|] == front;
        assert s == t + [separator] + "";
      } else {
        var last := front[|front| - 1];
        assert Split(s, separator)[..|front| - 1] == front[..|front| - 1];
        if |front| > 1 {
          assert Join(front, separator) == Join(front[..|front| - 1], separator) + [separator] + last;
          assert s == Join(front[..|front| - 1], separator) + [separator] + (last + [c]);
        }
      }
    }
  }

  lemma {:induction false} JoinFront(pieces: seq<string>, separator: char)
    requires |pieces| > 1
    ensures Join(pieces, separator) == pieces[0] + [separator] + Join(pieces[1..], separator)
  {
    var n := |pieces| - 1;
    if n > 1 {
      JoinFront(pieces[..n], separator);
      assert pieces[1..][..n - 1] == pieces[..n][1..];
    }
  }

  lemma {:induction false} JoinInjective(a: seq<string>, b: seq<string>, separator: char)
    requires |a| > 0 && |b| > 0 && Join(a, separator) == Join(b, separator)
    requires (forall i :: 0 <= i < |a| ==> separator !in a[i]) && (forall i :: 0 <= i < |b| ==> separator !in b[i])
    ensures a == b
  {
    SeparatorShows(a, separator);
    SeparatorShows(b, separator);
    if |a| > 1 {
      JoinFront(a, separator);
      JoinFront(b, separator);
      SplitAt(separator, a[0], Join(a[1..], separator), b[0], Join(b[1..], separator));
      JoinInjective(a[1..], b[1..], separator);
    }
  }

  lemma SeparatorShows(pieces: seq<string>, separator: char)
    requires |pieces| > 0 && separator !in pieces[0]
    ensures separator in Join(pieces, separator) <==> |pieces| > 1
  {
    if |pieces| > 1 {
      JoinFront(pieces, separator);
      assert Join(pieces, separator)[|pieces[0]|] == separator;
    }
  }

  /** The pieces are exactly the texts without the separator that join to the whole. */
  lemma SplitIsExact(s: string, pieces: seq<string>, separator: char)
    ensures pieces == Split(s, separator) <==>
              |pieces| > 0 && (forall i :: 0 <= i < |pieces| ==> separator !in pieces[i]) && Join(pieces, separator) == s
  {
    JoinSplit(s, separator);
    if |pieces| > 0 && (forall i :: 0 <= i < |pieces| ==> separator !in pieces[i]) && Join(pieces, separator) == s {
      JoinInjective(pieces, Split(s, separator), separator);
    }
  }

  function NonEmpty(xs: seq<string>): (r: seq<string>)
    ensures forall x :: x in r <==> x in xs && x != ""
  {
    if xs == [] then []
    else
      var last := xs[|xs| - 1];
      assert xs == xs[..|xs| - 1] + [last];
      NonEmpty(xs[..|xs| - 1]) + if last == "" then [] else [last]
  }

  function Segments(s: string): seq<string> {
    NonEmpty(Split(s, '/'))
  }

  // ----- one segment

  /** The anchored expression with `.*` for every star. */
  predicate WildMatch(value: string, pattern: string)
    decreases |pattern|
  {
    if pattern == "" then value == ""
    else if pattern[0] == '*' then exists i :: 0 <= i <= |value| && WildMatch(value[i..], pattern[1..])
    else value != "" && value[0] == pattern[0] && WildMatch(value[1..], pattern[1..])
  }

  predicate MatchSegment(value: string, pattern: string) {
    if pattern == "*" then true
    else if '*' !in pattern then value == pattern
    else WildMatch(value, pattern)
  }

  function Flatten<T>(blocks: seq<seq<T>>): seq<T> {
    if blocks == [] then [] else blocks[0] + Flatten(blocks[1..])
  }

  /** The segment splits into consecutive blocks, one per pattern character: any text for a star,
      the character itself otherwise. */
  ghost predicate SegmentBlocks(blocks: seq<string>, value: string, pattern: string) {
    && |blocks| == |pattern| && Flatten(blocks) == value
    && forall k :: 0 <= k < |pattern| ==> pattern[k] == '*' || blocks[k] == [pattern[k]]
  }

  lemma {:induction false} WildMatchIffBlocks(value: string, pattern: string)
    ensures WildMatch(value, pattern) <==> exists blocks :: SegmentBlocks(blocks, value, pattern)
    decreases |pattern|
  {
    if WildMatch(value, pattern) {
      var blocks := WildMatchBlocks(value, pattern);
    }
    if blocks :| SegmentBlocks(blocks, value, pattern) {
      BlocksWildMatch(blocks, value, pattern);
    }
  }

  lemma {:induction false} WildMatchBlocks(value: string, pattern: string) returns (blocks: seq<string>)
    requires WildMatch(value, pattern)
    ensures SegmentBlocks(blocks, value, pattern)
    decreases |pattern|
  {
    if pattern == "" {
      blocks := [];
    } else {
      var i := 1;
      if pattern[0] == '*' {
        i :| 0 <= i <= |value| && WildMatch(value[i..], pattern[1..]);
      }
      var rest := WildMatchBlocks(value[i..], pattern[1..]);
      blocks := [value[..i]] + rest;
      assert blocks[1..] == rest;
    }
  }

  lemma {:induction false} BlocksWildMatch(blocks: seq<string>, value: string, pattern: string)
    requires SegmentBlocks(blocks, value, pattern)
    ensures WildMatch(value, pattern)
    decreases |pattern|
  {
    if pattern != "" {
      var i := |blocks[0]|;
      assert value[i..] == Flatten(blocks[1..]);
      BlocksWildMatch(blocks[1..], value[i..], pattern[1..]);
    }
  }

  /** A segment matches exactly when it splits along its pattern; the two shortcuts change nothing. */
  lemma MatchSegmentIffBlocks(value: string, pattern: string)
    ensures MatchSegment(value, pattern) <==> exists blocks :: SegmentBlocks(blocks, value, pattern)
  {
    WildMatchIffBlocks(value, pattern);
    if pattern == "*" {
      assert Flatten([value]) == value by { assert [value][1..] == []; }
      assert SegmentBlocks([value], value, pattern);
    } else if '*' !in pattern {
      LiteralWildMatch(value, pattern);
    }
  }

  lemma {:induction false} LiteralWildMatch(value: string, pattern: string)
    requires '*' !in pattern
    ensures WildMatch(value, pattern) <==> value == pattern
    decreases |pattern|
  {
    if pattern != "" {
      assert pattern == [pattern[0]] + pattern[1..];
      if value != "" {
        assert value == [value[0]] + value[1..];
        LiteralWildMatch(value[1..], pattern[1..]);
      }
    }
  }

  // ----- whole branches

  /** `matchSegments`. */
  predicate MatchSegments(branch: seq<string>, pattern: seq<string>)
    decreases |pattern|
  {
    if pattern == [] then branch == []
    else if pattern[0] == "**" then
      |pattern| == 1 || exists i :: 0 <= i <= |branch| && MatchSegments(branch[i..], pattern[1..])
    else
      branch != [] && MatchSegment(branch[0], pattern[0]) && MatchSegments(branch[1..], pattern[1..])
  }

  /** The branch splits into consecutive blocks, one per pattern segment: any number of segments,
      including none, for `**`, and one matching segment otherwise. */
  ghost predicate BranchBlocks(blocks: seq<seq<string>>, branch: seq<string>, pattern: seq<string>) {
    && |blocks| == |pattern| && Flatten(blocks) == branch
    && forall k :: 0 <= k < |pattern| ==> pattern[k] == "**" || (|blocks[k]| == 1 && MatchSegment(blocks[k][0], pattern[k]))
  }

  /** `matchSegments` decides exactly the declarative glob language. */
  lemma MatchSegmentsIffBlocks(branch: seq<string>, pattern: seq<string>)
    ensures MatchSegments(branch, pattern) <==> exists blocks :: BranchBlocks(blocks, branch, pattern)
  {
    if MatchSegments(branch, pattern) {
      var blocks := MatchedBlocks(branch, pattern);
    }
    if blocks :| BranchBlocks(blocks, branch, pattern) {
      BlocksMatch(blocks, branch, pattern);
    }
  }

  lemma {:induction false} MatchedBlocks(branch: seq<string>, pattern: seq<string>) returns (blocks: seq<seq<string>>)
    requires MatchSegments(branch, pattern)
    ensures BranchBlocks(blocks, branch, pattern)
    decreases |pattern|
  {
    if pattern == [] {
      blocks := [];
    } else if pattern == ["**"] {
      blocks := [branch];
      assert blocks[1..] == [];
    } else {
      var i := 1;
      if pattern[0] == "**" {
        i :| 0 <= i <= |branch| && MatchSegments(branch[i..], pattern[1..]);
      }
      var rest := MatchedBlocks(branch[i..], pattern[1..]);
      blocks := [branch[..i]] + rest;
      assert blocks[1..] == rest;
    }
  }

  lemma {:induction false} BlocksMatch(blocks: seq<seq<string>>, branch: seq<string>, pattern: seq<string>)
    requires BranchBlocks(blocks, branch, pattern)
    ensures MatchSegments(branch, pattern)
    decreases |pattern|
  {
    if pattern != [] {
      var i := |blocks[0]|;
      assert branch[i..] == Flatten(blocks[1..]);
      BlocksMatch(blocks[1..], branch[i..], pattern[1..]);
    }
  }

  predicate MatchesBranchPattern(branch: string, pattern: string) {
    MatchSegments(Segments(branch), Segments(pattern))
  }

  /** `kept` are the texts that are not empty, in order, and `at` their positions. */
  ghost predicate Kept(xs: seq<string>, kept: seq<string>, at: seq<nat>) {
    && |at| == |kept| && (forall i, j :: 0 <= i < j < |at| ==> at[i] < at[j])
    && (forall j :: 0 <= j < |at| ==> at[j] < |xs| && xs[at[j]] == kept[j] != "")
    && (forall i: nat :: i < |xs| && xs[i] != "" ==> i in at)
  }

  lemma KeptNext(xs: seq<string>, x: string, kept: seq<string>, at: seq<nat>)
    requires Kept(xs, kept, at)
    ensures if x == "" then Kept(xs + [x], kept, at) else Kept(xs + [x], kept + [x], at + [|xs|])
  {
    var n := |xs|;
    if x != "" {
      assert (at + [n])[|at|] == n;
      forall i: nat | i < n + 1 && (xs + [x])[i] != ""
        ensures i in at + [n]
      {
        if i < n { assert xs[i] != ""; }
      }
    }
  }

  lemma {:induction false} NonEmptyIsKept(xs: seq<string>) returns (at: seq<nat>)
    ensures Kept(xs, NonEmpty(xs), at)
  {
    at := [];
    if xs != [] {
      var n := |xs| - 1;
      at := NonEmptyIsKept(xs[..n]);
      KeptNext(xs[..n], xs[n], NonEmpty(xs[..n]), at);
      assert xs == xs[..n] + [xs[n]];
      if xs[n] != "" { at := at + [n]; }
    }
  }

  /** The pieces of the name between its slashes, without the empty ones. */
  ghost predicate SegmentsOf(name: string, segments: seq<string>, pieces: seq<string>, at: seq<nat>) {
    && |pieces| > 0 && (forall i :: 0 <= i < |pieces| ==> '/' !in pieces[i]) && Join(pieces, '/') == name
    && Kept(pieces, segments, at)
  }

  lemma SegmentsAreExact(name: string)
    ensures exists pieces, at :: SegmentsOf(name, Segments(name), pieces, at)
  {
    var pieces := Split(name, '/');
    JoinSplit(name, '/');
    var at := NonEmptyIsKept(pieces);
    assert SegmentsOf(name, Segments(name), pieces, at);
  }

  /** A branch matches a pattern exactly when the segments of the one split into blocks along those of the
      other. */
  lemma BranchMatchesIffBlocks(branch: string, pattern: string) returns (parts: seq<string>, wanted: seq<string>)
    ensures exists pieces, at :: SegmentsOf(branch, parts, pieces, at)
    ensures exists pieces, at :: SegmentsOf(pattern, wanted, pieces, at)
    ensures MatchesBranchPattern(branch, pattern) <==> exists blocks :: BranchBlocks(blocks, parts, wanted)
  {
    parts, wanted := Segments(branch), Segments(pattern);
    SegmentsAreExact(branch);
    SegmentsAreExact(pattern);
    MatchSegmentsIffBlocks(parts, wanted);
  }

  /** `matchesAnyBranchPattern`: the first pattern that matches. */
  function MatchesAnyBranchPattern(branch: string, patterns: seq<string>): (r: Option<string>)
    ensures r.Some? <==> exists p :: p in patterns && MatchesBranchPattern(branch, p)
    ensures r.Some? ==> r.value in patterns && MatchesBranchPattern(branch, r.value)
  {
    if patterns == [] then None
    else if MatchesBranchPattern(branch, patterns[0]) then Some(patterns[0])
    else
      assert patterns == [patterns[0]] + patterns[1..];
      MatchesAnyBranchPattern(branch, patterns[1..])
  }
}
