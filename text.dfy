/**
 * The string operations of Rust's `str` that the plugin code relies on:
 * substring search (`contains`), `split` on a pattern, `lines`,
 * `trim_matches`/`trim`, and the decimal rendering and parsing of integers.
 * Each is given with the properties that say what it computes.
 */
module Text {
  import opened Wrappers

  // ---------------------------------------------------------------------
  // Substring search
  // ---------------------------------------------------------------------

  /** `pat` occurs in `s` starting at index `i`. */
  predicate OccursAt(s: string, pat: string, i: nat)
  {
    i + |pat| <= |s| && s[i..i + |pat|] == pat
  }

  /** Rust's `s.contains(pat)` for a string pattern. */
  predicate Contains(s: string, pat: string)
  {
    exists i: nat | i <= |s| :: OccursAt(s, pat, i)
  }

  /** Rust's `s.starts_with(prefix)`. */
  predicate StartsWith(s: string, prefix: string)
  {
    prefix <= s
  }

  /** An occurrence in `s[1..]` is an occurrence in `s`, one index further on. */
  lemma OccursTail(s: string, pat: string, j: nat)
    requires s != []
    ensures OccursAt(s, pat, j + 1) <==> OccursAt(s[1..], pat, j)
  {
    if j + 1 + |pat| <= |s| {
      assert s[1..][j..j + |pat|] == s[j + 1..j + 1 + |pat|];
    }
  }

  /** When `pat` is not at the front of `s`, it occurs in `s` exactly when it occurs in `s[1..]`. */
  lemma ContainsTail(s: string, pat: string)
    requires s != [] && !OccursAt(s, pat, 0)
    ensures Contains(s, pat) <==> Contains(s[1..], pat)
  {
    if Contains(s, pat) {
      var j: nat :| j <= |s| && OccursAt(s, pat, j);
      assert j != 0;
      OccursTail(s, pat, j - 1);
    }
    if Contains(s[1..], pat) {
      var j: nat :| j <= |s[1..]| && OccursAt(s[1..], pat, j);
      OccursTail(s, pat, j);
    }
  }

  /** The index of the first occurrence of `pat` in `s`, if any. */
  function FindFirst(s: string, pat: string): (r: Option<nat>)
    ensures r.Some? ==> r.value + |pat| <= |s|
    decreases |s|
  {
    if |s| < |pat| then None
    else if s[..|pat|] == pat then Some(0)
    else
      match FindFirst(s[1..], pat)
      case None => None
      case Some(i) => Some(i + 1)
  }

  /** What `FindFirst` finds is an occurrence. */
  lemma {:induction false} FindFirstOccurs(s: string, pat: string)
    ensures FindFirst(s, pat).Some? ==> OccursAt(s, pat, FindFirst(s, pat).value)
    decreases |s|
  {
    if |s| >= |pat| && s[..|pat|] != pat {
      FindFirstOccurs(s[1..], pat);
      if FindFirst(s[1..], pat).Some? {
        OccursTail(s, pat, FindFirst(s[1..], pat).value);
      }
    }
  }

  /** `FindFirst` finds nothing exactly when `pat` does not occur. */
  lemma {:induction false} FindFirstNone(s: string, pat: string)
    ensures FindFirst(s, pat).None? <==> !Contains(s, pat)
    decreases |s|
  {
    FindFirstOccurs(s, pat);
    if |s| >= |pat| && s[..|pat|] != pat {
      FindFirstNone(s[1..], pat);
      ContainsTail(s, pat);
    }
  }

  /** `FindFirst` finds something at or before any occurrence. */
  lemma {:induction false} FindFirstAt(s: string, pat: string, j: nat)
    requires OccursAt(s, pat, j)
    ensures FindFirst(s, pat).Some? && FindFirst(s, pat).value <= j
    decreases |s|
  {
    if s[..|pat|] != pat {
      OccursTail(s, pat, j - 1);
      FindFirstAt(s[1..], pat, j - 1);
    }
  }

  /** `FindFirst` finds the first occurrence: there is none before it. */
  lemma {:induction false} FindFirstEarliest(s: string, pat: string, j: nat)
    requires FindFirst(s, pat).Some? && j < FindFirst(s, pat).value
    ensures !OccursAt(s, pat, j)
    decreases |s|
  {
    if j > 0 {
      FindFirstEarliest(s[1..], pat, j - 1);
      OccursTail(s, pat, j - 1);
    }
  }

  /** A one-character pattern occurs exactly where the character does. */
  lemma ContainsChar(s: string, c: char)
    ensures Contains(s, [c]) <==> c in s
  {
    if c in s {
      var i :| 0 <= i < |s| && s[i] == c;
      assert OccursAt(s, [c], i);
    }
    if Contains(s, [c]) {
      var i: nat :| i <= |s| && OccursAt(s, [c], i);
      assert s[i] == s[i..i + 1][0];
    }
  }

  /**
   * An occurrence in `a + [c] + b` lies inside `a`, lies inside `b`, or
   * covers the `c` in between.
   */
  lemma OccurrenceLocation(a: string, c: char, b: string, pat: string, i: nat)
    requires OccursAt(a + [c] + b, pat, i)
    ensures || (i + |pat| <= |a| && OccursAt(a, pat, i))
            || (i >= |a| + 1 && OccursAt(b, pat, i - |a| - 1))
            || c in pat
  {
    var s := a + [c] + b;
    if i + |pat| <= |a| {
      assert a[i..i + |pat|] == s[i..i + |pat|];
    } else if i >= |a| + 1 {
      assert s[|a| + 1..] == b;
      assert s[i..i + |pat|] == s[|a| + 1..][i - |a| - 1..i - |a| - 1 + |pat|];
    } else {
      assert pat[|a| - i] == s[i..i + |pat|][|a| - i] == s[|a|];
    }
  }

  /**
   * A pattern that does not contain `c` occurs in `a + [c] + b` exactly
   * when it occurs in `a` or in `b`: no occurrence can straddle `c`.
   */
  lemma ContainsAround(a: string, c: char, b: string, pat: string)
    requires c !in pat
    ensures Contains(a + [c] + b, pat) <==> Contains(a, pat) || Contains(b, pat)
  {
    var s := a + [c] + b;
    if Contains(a, pat) {
      var i: nat :| i <= |a| && OccursAt(a, pat, i);
      assert s[i..i + |pat|] == a[i..i + |pat|];
      assert OccursAt(s, pat, i);
    }
    if Contains(b, pat) {
      var i: nat :| i <= |b| && OccursAt(b, pat, i);
      assert s[|a| + 1..] == b;
      assert s[|a| + 1 + i..|a| + 1 + i + |pat|] == b[i..i + |pat|];
      assert OccursAt(s, pat, |a| + 1 + i);
    }
    if Contains(s, pat) {
      var i: nat :| i <= |s| && OccursAt(s, pat, i);
      OccurrenceLocation(a, c, b, pat, i);
    }
  }

  // ---------------------------------------------------------------------
  // split / join
  // ---------------------------------------------------------------------

  /** Rust's `s.split(sep)` collected into a sequence, for a non-empty pattern. */
  function Split(s: string, sep: string): (parts: seq<string>)
    requires sep != []
    ensures |parts| >= 1
    decreases |s|
  {
    var r := FindFirst(s, sep);
    if r.None? then [s]
    else [s[..r.value]] + Split(s[r.value + |sep|..], sep)
  }

  /** Rust's `split(sep).nth(n)`. */
  function SplitNth(s: string, sep: string, n: nat): (r: Option<string>)
    requires sep != []
    ensures r.Some? <==> n < |Split(s, sep)|
  {
    var parts := Split(s, sep);
    if n < |parts| then Some(parts[n]) else None
  }

  /** The pieces put back together with the separator between them. */
  function Join(parts: seq<string>, sep: string): string
    requires |parts| >= 1
  {
    if |parts| == 1 then parts[0] else parts[0] + sep + Join(parts[1..], sep)
  }

  /** Splitting loses nothing: joining the pieces gives back the input. */
  lemma {:induction false} SplitJoin(s: string, sep: string)
    requires sep != []
    ensures Join(Split(s, sep), sep) == s
    decreases |s|
  {
    match FindFirst(s, sep)
    case None =>
    case Some(i) =>
      FindFirstOccurs(s, sep);
      var rest := s[i + |sep|..];
      SplitJoin(rest, sep);
      SplitUnfold(s, sep, i);
      JoinCons(s[..i], Split(rest, sep), sep);
      Reassemble(s, sep, i, rest);
  }

  /** The text is the part before an occurrence, the occurrence, and the rest. */
  lemma Reassemble(s: string, pat: string, i: nat, rest: string)
    requires OccursAt(s, pat, i) && rest == s[i + |pat|..]
    ensures s == s[..i] + pat + rest
  {
    assert s == s[..i] + s[i..i + |pat|] + rest;
  }

  lemma SplitUnfold(s: string, sep: string, i: nat)
    requires sep != [] && FindFirst(s, sep) == Some(i)
    ensures Split(s, sep) == [s[..i]] + Split(s[i + |sep|..], sep)
  {
  }

  lemma JoinCons(x: string, rest: seq<string>, sep: string)
    requires |rest| >= 1
    ensures Join([x] + rest, sep) == x + sep + Join(rest, sep)
  {
    assert ([x] + rest)[1..] == rest;
  }

  /** No piece of a split contains the separator. */
  lemma {:induction false} SplitPiecesFree(s: string, sep: string)
    requires sep != []
    ensures forall k :: 0 <= k < |Split(s, sep)| ==> !Contains(Split(s, sep)[k], sep)
    decreases |s|
  {
    FindFirstNone(s, sep);
    match FindFirst(s, sep)
    case None =>
    case Some(i) =>
      var rest := s[i + |sep|..];
      SplitPiecesFree(rest, sep);
      var parts := Split(s, sep);
      assert parts == [s[..i]] + Split(rest, sep);
      forall j: nat | j <= i
        ensures !OccursAt(s[..i], sep, j)
      {
        PrefixOccurrence(s, i, sep, j);
        if j < i {
          FindFirstEarliest(s, sep, j);
        }
      }
  }

  /** An occurrence in a prefix of `s` is an occurrence in `s`. */
  lemma PrefixOccurrence(s: string, i: nat, pat: string, j: nat)
    requires i <= |s|
    ensures OccursAt(s[..i], pat, j) ==> j + |pat| <= i && OccursAt(s, pat, j)
  {
    if OccursAt(s[..i], pat, j) {
      assert s[j..j + |pat|] == s[..i][j..j + |pat|];
    }
  }

  /** A one-character pattern occurs at `i` exactly when that character is at `i`. */
  lemma OccursChar(s: string, c: char, i: nat)
    ensures OccursAt(s, [c], i) <==> i < |s| && s[i] == c
  {
    if i < |s| {
      assert s[i..i + 1] == [s[i]];
    }
  }

  /**
   * Splitting `a + [c] + b` on the character `c`, where `a` holds no `c`,
   * gives `a` followed by the pieces of `b`.
   */
  lemma SplitAtChar(a: string, c: char, b: string)
    requires c !in a
    ensures Split(a + [c] + b, [c]) == [a] + Split(b, [c])
  {
    var s := a + [c] + b;
    OccursChar(s, c, |a|);
    FindFirstAt(s, [c], |a|);
    var r := FindFirst(s, [c]);
    FindFirstOccurs(s, [c]);
    OccursChar(s, c, r.value);
    assert r.value == |a|;
    assert s[..|a|] == a;
    assert s[|a| + 1..] == b;
  }

  /** A text without the character `c` is a single piece. */
  lemma SplitWithoutChar(b: string, c: char)
    requires c !in b
    ensures Split(b, [c]) == [b]
  {
    ContainsChar(b, c);
    FindFirstNone(b, [c]);
  }

  /** The first piece of a split is a prefix of the text, without the separator. */
  lemma FirstPiece(s: string, sep: string)
    requires sep != []
    ensures Split(s, sep)[0] <= s && !Contains(Split(s, sep)[0], sep)
  {
    SplitPiecesFree(s, sep);
  }

  /** A text splits into two or more pieces exactly when it contains the separator. */
  lemma SplitCount(s: string, sep: string)
    requires sep != []
    ensures |Split(s, sep)| >= 2 <==> Contains(s, sep)
  {
    FindFirstNone(s, sep);
  }

  /**
   * `line` is `pre`, the first occurrence of `sep`, `seg`, and `post`, where
   * `post` is empty or starts at the next occurrence of `sep` after the
   * first one: the shape `split(sep)` gives its second piece, matching from
   * the left without overlap.
   */
  predicate SecondPieceAt(line: string, sep: string, pre: string, seg: string, post: string)
  {
    && line == pre + sep + seg + post
    && (forall k :: 0 <= k < |pre| ==> !OccursAt(line, sep, k))
    && (forall k :: 0 <= k < |seg| ==> !OccursAt(seg + post, sep, k))
    && (post == [] || StartsWith(post, sep))
  }

  /** `split(sep).nth(1)` of a text that contains the separator has the shape `SecondPieceAt`. */
  lemma SecondSegment(line: string, sep: string) returns (pre: string, seg: string, post: string)
    requires sep != [] && Contains(line, sep)
    ensures |Split(line, sep)| >= 2 && seg == Split(line, sep)[1]
    ensures SecondPieceAt(line, sep, pre, seg, post)
  {
    FindFirstNone(line, sep);
    FindFirstOccurs(line, sep);
    var i := FindFirst(line, sep).value;
    var rest := line[i + |sep|..];
    SplitUnfold(line, sep, i);
    Reassemble(line, sep, i, rest);
    pre := line[..i];
    forall k | 0 <= k < |pre|
      ensures !OccursAt(line, sep, k)
    {
      FindFirstEarliest(line, sep, k);
    }
    var second := SecondPiece(rest, sep);
    seg, post := second.0, second.1;
    calc {
      line;
      pre + sep + rest;
      pre + sep + (seg + post);
      pre + sep + seg + post;
    }
  }

  /** The first piece of a split and what follows it: empty, or starting with the separator. */
  lemma SecondPiece(rest: string, sep: string) returns (r: (string, string))
    requires sep != []
    ensures r.0 == Split(rest, sep)[0] && rest == r.0 + r.1
    ensures forall k :: 0 <= k < |r.0| ==> !OccursAt(rest, sep, k)
    ensures r.1 == [] || StartsWith(r.1, sep)
  {
    FindFirstNone(rest, sep);
    match FindFirst(rest, sep) {
      case None =>
        r := (rest, []);
      case Some(k) =>
        FindFirstOccurs(rest, sep);
        SplitUnfold(rest, sep, k);
        r := (rest[..k], rest[k..]);
        assert rest[k..][..|sep|] == rest[k..k + |sep|];
        assert rest == rest[..k] + rest[k..];
        forall j | 0 <= j < k
          ensures !OccursAt(rest, sep, j)
        {
          FindFirstEarliest(rest, sep, j);
        }
    }
  }

  /** A text that starts with `sep`, put after `a`, holds `sep` right after `a`. */
  lemma OccursAfter(a: string, b: string, sep: string)
    requires StartsWith(b, sep)
    ensures OccursAt(a + b, sep, |a|)
  {
    assert (a + b)[|a|..|a| + |sep|] == b[..|sep|];
  }

  /**
   * `s` is `a` then `b`, where `b` is empty or starts with `sep` and `sep`
   * does not start anywhere in `a`: `a` runs up to the first occurrence.
   */
  lemma UpToFirstUnique(s: string, sep: string, a1: string, b1: string, a2: string, b2: string)
    requires s == a1 + b1 && (b1 == [] || StartsWith(b1, sep))
    requires s == a2 + b2 && (b2 == [] || StartsWith(b2, sep))
    requires forall k :: 0 <= k < |a1| ==> !OccursAt(s, sep, k)
    requires forall k :: 0 <= k < |a2| ==> !OccursAt(s, sep, k)
    ensures a1 == a2 && b1 == b2
  {
    if b1 != [] {
      OccursAfter(a1, b1, sep);
    }
    if b2 != [] {
      OccursAfter(a2, b2, sep);
    }
    assert |a1| == |a2|;
    assert a1 == s[..|a1|] && a2 == s[..|a2|];
  }

  /** A text has the shape `SecondPieceAt` in one way only. */
  lemma SecondPieceUnique(line: string, sep: string, pre1: string, seg1: string, post1: string,
                          pre2: string, seg2: string, post2: string)
    requires SecondPieceAt(line, sep, pre1, seg1, post1)
    requires SecondPieceAt(line, sep, pre2, seg2, post2)
    ensures pre1 == pre2 && seg1 == seg2 && post1 == post2
  {
    // both `pre`s end at the first occurrence
    assert line == pre1 + (sep + seg1 + post1) == pre2 + (sep + seg2 + post2);
    UpToFirstUnique(line, sep, pre1, sep + seg1 + post1, pre2, sep + seg2 + post2);
    // both `seg`s end at the next occurrence, or at the end
    assert seg1 + post1 == seg2 + post2 by {
      assert sep + seg1 + post1 == sep + (seg1 + post1);
      assert sep + seg2 + post2 == sep + (seg2 + post2);
      assert (sep + (seg1 + post1))[|sep|..] == seg1 + post1;
      assert (sep + (seg2 + post2))[|sep|..] == seg2 + post2;
    }
    UpToFirstUnique(seg1 + post1, sep, seg1, post1, seg2, post2);
  }

  // ---------------------------------------------------------------------
  // lines
  // ---------------------------------------------------------------------

  /** The index of the first `c` in `s`, if any. */
  function IndexOf(s: string, c: char): (r: Option<nat>)
    ensures r.Some? ==> r.value < |s|
    decreases |s|
  {
    if s == [] then None
    else if s[0] == c then Some(0)
    else
      match IndexOf(s[1..], c)
      case None => None
      case Some(i) => Some(i + 1)
  }

  /**
   * `IndexOf` finds `c` at the index it returns and nowhere before it, and
   * finds nothing exactly when `c` does not occur.
   */
  lemma {:induction false} IndexOfSpec(s: string, c: char)
    ensures IndexOf(s, c).Some? ==> s[IndexOf(s, c).value] == c && c !in s[..IndexOf(s, c).value]
    ensures IndexOf(s, c).None? <==> c !in s
    decreases |s|
  {
    if s != [] && s[0] != c {
      IndexOfSpec(s[1..], c);
      assert s == [s[0]] + s[1..];
      match IndexOf(s[1..], c)
      case None =>
      case Some(i) =>
        assert s[..i + 1] == [s[0]] + s[1..][..i];
    }
  }

  /** Drops one `'\r'` at the end of a line that ended in `"\r\n"`. */
  function StripCarriageReturn(line: string): string
  {
    if line != [] && line[|line| - 1] == '\r' then line[..|line| - 1] else line
  }

  /**
   * Rust's `s.lines()`: pieces ended by `"\n"` or `"\r\n"`, the terminator
   * removed; a final terminator does not start an empty last line, and the
   * empty string has no lines.
   */
  function Lines(s: string): (lines: seq<string>)
    ensures s != [] <==> lines != []
    decreases |s|
  {
    if s == [] then []
    else
      var r := IndexOf(s, '\n');
      if r.None? then [s]
      else [StripCarriageReturn(s[..r.value])] + Lines(s[r.value + 1..])
  }

  /** Some line of `lines` contains `pat`. */
  ghost predicate SomeLineContains(lines: seq<string>, pat: string)
  {
    exists k :: 0 <= k < |lines| && Contains(lines[k], pat)
  }

  lemma SomeLineCons(line: string, rest: seq<string>, pat: string)
    ensures SomeLineContains([line] + rest, pat) <==> Contains(line, pat) || SomeLineContains(rest, pat)
  {
    var lines := [line] + rest;
    if Contains(line, pat) {
      assert lines[0] == line;
    }
    if SomeLineContains(lines, pat) {
      var k :| 0 <= k < |lines| && Contains(lines[k], pat);
      if k > 0 {
        assert lines[k] == rest[k - 1];
      }
    }
    if SomeLineContains(rest, pat) {
      var k :| 0 <= k < |rest| && Contains(rest[k], pat);
      assert lines[k + 1] == rest[k];
    }
  }

  lemma LinesUnfold(s: string, i: nat)
    requires s != [] && IndexOf(s, '\n') == Some(i)
    ensures s == s[..i] + ['\n'] + s[i + 1..]
    ensures Lines(s) == [StripCarriageReturn(s[..i])] + Lines(s[i + 1..])
  {
    IndexOfSpec(s, '\n');
  }

  /** No line holds a line feed. */
  lemma {:induction false} LinesNoNewline(s: string)
    ensures forall k :: 0 <= k < |Lines(s)| ==> '\n' !in Lines(s)[k]
    decreases |s|
  {
    if s != [] {
      IndexOfSpec(s, '\n');
      match IndexOf(s, '\n')
      case None =>
      case Some(i) =>
        LinesNoNewline(s[i + 1..]);
        LinesUnfold(s, i);
    }
  }

  /** A pattern without `'\r'` is unaffected by stripping the carriage return. */
  lemma StripKeepsContains(line: string, pat: string)
    requires pat != [] && '\r' !in pat
    ensures Contains(StripCarriageReturn(line), pat) <==> Contains(line, pat)
  {
    if line != [] && line[|line| - 1] == '\r' {
      var t := line[..|line| - 1];
      assert line == t + ['\r'] + [];
      ContainsAround(t, '\r', [], pat);
      assert !OccursAt([], pat, 0);
    }
  }

  /**
   * For a pattern without line-break characters, some line contains it
   * exactly when the whole text does.
   */
  lemma {:induction false} LinesContain(s: string, pat: string)
    requires pat != [] && '\n' !in pat && '\r' !in pat
    ensures SomeLineContains(Lines(s), pat) <==> Contains(s, pat)
    decreases |s|
  {
    if s == [] {
      assert !OccursAt(s, pat, 0);
    } else {
      match IndexOf(s, '\n')
      case None =>
        assert Lines(s) == [s] + [];
        SomeLineCons(s, [], pat);
      case Some(i) =>
        var line, rest := s[..i], s[i + 1..];
        LinesUnfold(s, i);
        LinesContain(rest, pat);
        ContainsAround(line, '\n', rest, pat);
        StripKeepsContains(line, pat);
        SomeLineCons(StripCarriageReturn(line), Lines(rest), pat);
    }
  }

  /** The first element of `xs` satisfying `p`: Rust's `filter(p).nth(0)`. */
  function FirstLineWith(lines: seq<string>, pat: string): (r: Option<nat>)
    ensures r.Some? ==> r.value < |lines| && Contains(lines[r.value], pat)
    ensures r.Some? ==> forall k :: 0 <= k < r.value ==> !Contains(lines[k], pat)
    ensures r.None? <==> !SomeLineContains(lines, pat)
    decreases |lines|
  {
    if lines == [] then None
    else if Contains(lines[0], pat) then Some(0)
    else
      match FirstLineWith(lines[1..], pat)
      case None => None
      case Some(k) => Some(k + 1)
  }

  // ---------------------------------------------------------------------
  // trimming
  // ---------------------------------------------------------------------

  /** Removes the longest prefix of characters satisfying `strip`. */
  function TrimStart(s: string, strip: char -> bool): (r: string)
    ensures |r| <= |s| && r == s[|s| - |r|..]
    ensures forall k :: 0 <= k < |s| - |r| ==> strip(s[k])
    ensures r != [] ==> !strip(r[0])
    decreases |s|
  {
    if s != [] && strip(s[0]) then TrimStart(s[1..], strip) else s
  }

  /** Removes the longest suffix of characters satisfying `strip`. */
  function TrimEnd(s: string, strip: char -> bool): (r: string)
    ensures |r| <= |s| && r == s[..|r|]
    ensures forall k :: |r| <= k < |s| ==> strip(s[k])
    ensures r != [] ==> !strip(r[|r| - 1])
    decreases |s|
  {
    if s != [] && strip(s[|s| - 1]) then TrimEnd(s[..|s| - 1], strip) else s
  }

  /** `s[i..j]` is `s` with exactly the characters satisfying `strip` cut from both ends. */
  ghost predicate TrimmedAt(s: string, strip: char -> bool, i: nat, j: nat)
  {
    && i <= j <= |s|
    && (forall k :: 0 <= k < i ==> strip(s[k]))
    && (forall k :: j <= k < |s| ==> strip(s[k]))
    && (i < j ==> !strip(s[i]) && !strip(s[j - 1]))
  }

  /** Rust's `s.trim_matches(strip)`. */
  function TrimMatches(s: string, strip: char -> bool): (r: string)
    ensures exists i: nat, j: nat :: TrimmedAt(s, strip, i, j) && r == s[i..j]
  {
    var t := TrimStart(s, strip);
    var r := TrimEnd(t, strip);
    assert |t| <= |s| && t == s[|s| - |t|..];
    assert forall k :: 0 <= k < |s| - |t| ==> strip(s[k]);
    assert t != [] ==> !strip(t[0]);
    assert |r| <= |t| && r == t[..|r|];
    assert forall k :: |r| <= k < |t| ==> strip(t[k]);
    assert r != [] ==> !strip(r[|r| - 1]);
    TrimBothEnds(s, strip, t, r);
    r
  }

  /** Trimming the start and then the end cuts exactly the stripped characters off both ends. */
  lemma TrimBothEnds(s: string, strip: char -> bool, t: string, r: string)
    requires |t| <= |s| && t == s[|s| - |t|..]
    requires forall k :: 0 <= k < |s| - |t| ==> strip(s[k])
    requires t != [] ==> !strip(t[0])
    requires |r| <= |t| && r == t[..|r|]
    requires forall k :: |r| <= k < |t| ==> strip(t[k])
    requires r != [] ==> !strip(r[|r| - 1])
    ensures TrimmedAt(s, strip, |s| - |t|, |s| - |t| + |r|)
    ensures r == s[|s| - |t|..|s| - |t| + |r|]
  {
    var i := |s| - |t|;
    forall k | i + |r| <= k < |s|
      ensures strip(s[k])
    {
      assert s[k] == t[k - i];
    }
    if 0 < |r| {
      assert s[i] == t[0] == r[0];
      assert s[i + |r| - 1] == r[|r| - 1];
    }
  }

  /** The characters cut from both ends are fixed by `s` and `strip`: the kept slice is unique. */
  lemma TrimmedAtUnique(s: string, strip: char -> bool, i1: nat, j1: nat, i2: nat, j2: nat)
    requires TrimmedAt(s, strip, i1, j1) && TrimmedAt(s, strip, i2, j2)
    ensures s[i1..j1] == s[i2..j2]
  {
    if i1 < j1 && i2 < j2 {
      // the first kept character is kept by both, so both slices start there
      assert i2 <= i1 < j2;
    }
  }

  /** Unicode's White_Space property, which Rust's `char::is_whitespace` tests. */
  predicate IsWhitespace(c: char)
  {
    var n := c as int;
    (0x09 <= n <= 0x0D) || n == 0x20 || n == 0x85 || n == 0xA0 || n == 0x1680
    || (0x2000 <= n <= 0x200A) || n == 0x2028 || n == 0x2029 || n == 0x202F
    || n == 0x205F || n == 0x3000
  }

  /** Rust's `s.trim()`. */
  function Trim(s: string): string
  {
    TrimMatches(s, IsWhitespace)
  }

  /** Trimming the empty text gives the empty text. */
  lemma TrimEmpty()
    ensures Trim("") == ""
  {
    var i: nat, j: nat :| TrimmedAt("", IsWhitespace, i, j) && Trim("") == ""[i..j];
  }

  // ---------------------------------------------------------------------
  // decimal integers
  // ---------------------------------------------------------------------

  predicate IsDigit(c: char)
  {
    '0' <= c <= '9'
  }

  predicate AllDigits(s: string)
  {
    forall k :: 0 <= k < |s| ==> IsDigit(s[k])
  }

  function DigitValue(c: char): nat
    requires IsDigit(c)
  {
    c as int - '0' as int
  }

  function DigitChar(d: nat): (c: char)
    requires d < 10
    ensures IsDigit(c) && DigitValue(c) == d
  {
    ('0' as int + d) as char
  }

  /** The decimal text of `n`, as Rust's `Display` writes an unsigned integer. */
  function NatToString(n: nat): (s: string)
    ensures s != [] && AllDigits(s)
    decreases n
  {
    if n < 10 then [DigitChar(n)] else NatToString(n / 10) + [DigitChar(n % 10)]
  }

  /** The value of a string of decimal digits. */
  function DigitsValue(s: string): nat
    requires AllDigits(s)
    decreases |s|
  {
    if s == [] then 0 else DigitsValue(s[..|s| - 1]) * 10 + DigitValue(s[|s| - 1])
  }

  lemma {:induction false} NatToStringRoundTrip(n: nat)
    ensures DigitsValue(NatToString(n)) == n
    decreases n
  {
    if n >= 10 {
      NatToStringRoundTrip(n / 10);
      var s := NatToString(n);
      assert s[..|s| - 1] == NatToString(n / 10);
    }
  }

  /** The decimal text of `i`, as Rust's `Display` writes a signed integer. */
  function IntToString(i: int): string
  {
    if i < 0 then "-" + NatToString(-i) else NatToString(i)
  }

  /** Reads back what `IntToString` writes: an optional `-` and at least one digit. */
  function ParseInt(s: string): Option<int>
  {
    if |s| >= 2 && s[0] == '-' && AllDigits(s[1..]) then Some(0 - DigitsValue(s[1..]))
    else if s != [] && AllDigits(s) then Some(DigitsValue(s))
    else None
  }

  lemma IntToStringRoundTrip(i: int)
    ensures ParseInt(IntToString(i)) == Some(i)
  {
    if i < 0 {
      NatToStringRoundTrip(-i);
      assert IntToString(i)[1..] == NatToString(-i);
    } else {
      NatToStringRoundTrip(i);
    }
  }

  /** Rust's `u16::from_str`: an optional `+`, then one or more digits, at most 65535. */
  function ParseU16(s: string): (r: Option<nat>)
    ensures r.Some? ==> r.value < 0x1_0000
  {
    var digits := if s != [] && s[0] == '+' then s[1..] else s;
    if digits != [] && AllDigits(digits) && DigitsValue(digits) < 0x1_0000
    then Some(DigitsValue(digits))
    else None
  }
}
