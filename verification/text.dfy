/**
 * The .NET string operations the core relies on: null-or-empty tests, substring search,
 * `Split` with and without `RemoveEmptyEntries`, and left-to-right `Replace`.
 * Character classes are ASCII approximations of `char.IsLetter`, `char.IsWhiteSpace`
 * and `ToLower`.
 */
module Text {
  import opened Wrappers

  /** A .NET `string` reference; `None` is `null`. */
  type NString = Option<string>

  /** The message of the exception .NET throws when a member of a null reference is used. */
  const NullReferenceMessage: string := "Object reference not set to an instance of an object."

  /** `string.IsNullOrEmpty`. */
  predicate IsNullOrEmpty(s: NString) {
    s.None? || |s.value| == 0
  }

  /** What a (possibly null) string contributes to an interpolation or to `Replace`: null adds nothing. */
  function OrEmpty(s: NString): string {
    if s.Some? then s.value else ""
  }

  /** ASCII approximation of `char.IsLetter`. */
  predicate IsLetter(c: char) {
    ('a' <= c <= 'z') || ('A' <= c <= 'Z')
  }

  /** `s.Any(char.IsLetter)`. */
  predicate HasLetter(s: string) {
    exists i :: 0 <= i < |s| && IsLetter(s[i])
  }

  predicate IsDigit(c: char) {
    '0' <= c <= '9'
  }

  /** The white space `NumberStyles.AllowLeadingWhite`/`AllowTrailingWhite` skip: U+0009..U+000D and U+0020. */
  predicate IsWhite(c: char) {
    c == ' ' || ('\t' <= c <= '\r')
  }

  function LowerChar(c: char): char {
    if 'A' <= c <= 'Z' then (c as int - 'A' as int + 'a' as int) as char else c
  }

  /** ASCII approximation of `ToLower()`. */
  function Lower(s: string): (r: string)
    ensures |r| == |s|
    ensures forall i :: 0 <= i < |s| ==> r[i] == LowerChar(s[i])
  {
    seq(|s|, i requires 0 <= i < |s| => LowerChar(s[i]))
  }

  /** `sub` occurs in `s` starting at index `i`. */
  predicate OccursAt(s: string, sub: string, i: int) {
    0 <= i && i + |sub| <= |s| && s[i..i + |sub|] == sub
  }

  /** `s.Contains(sub)`: ordinal substring search. */
  predicate Contains(s: string, sub: string) {
    exists i :: 0 <= i <= |s| - |sub| && OccursAt(s, sub, i)
  }

  /** Substring search after case folding, as a SQL `LIKE '%sub%'` under a case-insensitive collation. */
  predicate ContainsIgnoreCase(s: string, sub: string) {
    Contains(Lower(s), Lower(sub))
  }

  /** No character of `s` is one of `seps`. */
  predicate NoneOf(s: string, seps: set<char>) {
    forall j :: 0 <= j < |s| ==> s[j] !in seps
  }

  /**
   * `s.Split(seps)` without options: the text between separators, empty pieces kept.
   * The result is never empty; `""` splits into `[""]`.
   */
  function Split(s: string, seps: set<char>): (parts: seq<string>)
    ensures |parts| >= 1
    ensures forall i :: 0 <= i < |parts| ==> NoneOf(parts[i], seps)
    decreases |s|
  {
    if |s| == 0 then [""]
    else
      var rest := Split(s[1..], seps);
      if s[0] in seps then [""] + rest
      else [[s[0]] + rest[0]] + rest[1..]
  }

  /** `string.Join(sep, parts)`. */
  function Join(parts: seq<string>, sep: char): string
    decreases |parts|
  {
    if |parts| == 0 then ""
    else if |parts| == 1 then parts[0]
    else parts[0] + [sep] + Join(parts[1..], sep)
  }

  /** The pieces left by `StringSplitOptions.RemoveEmptyEntries`: the non-empty ones, in order. */
  function RemoveEmpty(parts: seq<string>): (r: seq<string>)
    ensures |r| <= |parts|
    ensures forall i :: 0 <= i < |r| ==> |r[i]| > 0 && r[i] in parts
    ensures forall i :: 0 <= i < |parts| && |parts[i]| > 0 ==> parts[i] in r
    decreases |parts|
  {
    if |parts| == 0 then []
    else (if |parts[0]| == 0 then [] else [parts[0]]) + RemoveEmpty(parts[1..])
  }

  /** `s.Split(seps, StringSplitOptions.RemoveEmptyEntries)`. */
  function SplitRemoveEmpty(s: string, seps: set<char>): (pieces: seq<string>)
    ensures forall i :: 0 <= i < |pieces| ==> |pieces[i]| > 0 && NoneOf(pieces[i], seps)
  {
    RemoveEmpty(Split(s, seps))
  }

  /** The concatenation of all pieces. */
  function Concat(parts: seq<string>): string
    decreases |parts|
  {
    if |parts| == 0 then "" else parts[0] + Concat(parts[1..])
  }

  /** `s` with every separator character deleted. */
  function Strip(s: string, seps: set<char>): string
    decreases |s|
  {
    if |s| == 0 then "" else (if s[0] in seps then "" else [s[0]]) + Strip(s[1..], seps)
  }

  /** Splitting loses exactly the separators: the pieces concatenate to `s` without them. */
  lemma {:induction false} SplitKeepsContent(s: string, seps: set<char>)
    ensures Concat(Split(s, seps)) == Strip(s, seps)
    decreases |s|
  {
    if |s| > 0 {
      var rest := Split(s[1..], seps);
      SplitKeepsContent(s[1..], seps);
      if s[0] !in seps {
        var parts := [[s[0]] + rest[0]] + rest[1..];
        assert parts[1..] == rest[1..];
        assert Concat(rest) == rest[0] + Concat(rest[1..]);
        assert Concat(parts) == [s[0]] + rest[0] + Concat(rest[1..]);
      } else {
        assert ([""] + rest)[1..] == rest;
      }
    }
  }

  /** Dropping empty pieces does not change what they spell. */
  lemma {:induction false} RemoveEmptyKeepsContent(parts: seq<string>)
    ensures Concat(RemoveEmpty(parts)) == Concat(parts)
    decreases |parts|
  {
    if |parts| > 0 {
      var tail := RemoveEmpty(parts[1..]);
      RemoveEmptyKeepsContent(parts[1..]);
      assert Concat(parts) == parts[0] + Concat(parts[1..]);
      if |parts[0]| > 0 {
        assert RemoveEmpty(parts) == [parts[0]] + tail;
        assert ([parts[0]] + tail)[1..] == tail;
      } else {
        assert RemoveEmpty(parts) == [] + tail == tail;
        assert parts[0] + Concat(parts[1..]) == Concat(parts[1..]);
      }
    }
  }

  /** The non-empty pieces of a split spell the input with its separators deleted. */
  lemma SplitRemoveEmptyKeepsContent(s: string, seps: set<char>)
    ensures Concat(SplitRemoveEmpty(s, seps)) == Strip(s, seps)
  {
    RemoveEmptyKeepsContent(Split(s, seps));
    SplitKeepsContent(s, seps);
  }

  /** Joining the pieces of a single-separator split with that separator restores the input. */
  lemma {:induction false} JoinSplit(s: string, sep: char)
    ensures Join(Split(s, {sep}), sep) == s
    decreases |s|
  {
    if |s| > 0 {
      var rest := Split(s[1..], {sep});
      JoinSplit(s[1..], sep);
      if s[0] == sep {
        assert ([""] + rest)[1..] == rest;
        assert Join([""] + rest, sep) == "" + [sep] + Join(rest, sep);
        assert s == [s[0]] + s[1..];
      } else {
        var parts := [[s[0]] + rest[0]] + rest[1..];
        assert parts[1..] == rest[1..];
        if |rest| == 1 {
          assert Join(parts, sep) == [s[0]] + rest[0];
        } else {
          assert Join(rest, sep) == rest[0] + [sep] + Join(rest[1..], sep);
          assert Join(parts, sep) == [s[0]] + rest[0] + [sep] + Join(rest[1..], sep);
        }
        assert s == [s[0]] + s[1..];
      }
    }
  }

  /** A piece free of separators splits into itself. */
  lemma {:induction false} SplitNoSeparator(p: string, seps: set<char>)
    requires NoneOf(p, seps)
    ensures Split(p, seps) == [p]
    decreases |p|
  {
    if |p| > 0 {
      SplitNoSeparator(p[1..], seps);
      assert [p[0]] + p[1..] == p;
    }
  }

  /** A separator-free prefix followed by a separator becomes the first piece. */
  lemma {:induction false} SplitAfterPiece(p: string, c: char, rest: string, seps: set<char>)
    requires NoneOf(p, seps) && c in seps
    ensures Split(p + [c] + rest, seps) == [p] + Split(rest, seps)
    decreases |p|
  {
    var s := p + [c] + rest;
    if |p| == 0 {
      assert s[1..] == rest;
    } else {
      assert s[1..] == p[1..] + [c] + rest;
      SplitAfterPiece(p[1..], c, rest, seps);
      assert [p[0]] + p[1..] == p;
    }
  }

  /** Splitting a join of separator-free pieces gives back the pieces. */
  lemma {:induction false} SplitJoin(parts: seq<string>, sep: char)
    requires |parts| >= 1
    requires forall i :: 0 <= i < |parts| ==> NoneOf(parts[i], {sep})
    ensures Split(Join(parts, sep), {sep}) == parts
    decreases |parts|
  {
    if |parts| == 1 {
      SplitNoSeparator(parts[0], {sep});
    } else {
      SplitJoin(parts[1..], sep);
      SplitAfterPiece(parts[0], sep, Join(parts[1..], sep), {sep});
      assert [parts[0]] + parts[1..] == parts;
    }
  }

  /**
   * `s.Replace(oldValue, newValue)`: scanning left to right, every non-overlapping
   * occurrence of `oldValue` becomes `newValue`; the replacement text is not rescanned.
   * .NET rejects an empty `oldValue`. A text in which the first character of `oldValue`
   * never occurs, and a replacement of a text by itself, change nothing.
   */
  function Replace(s: string, oldValue: string, newValue: string): (r: string)
    requires |oldValue| > 0
    ensures NoneOf(s, {oldValue[0]}) ==> r == s
    ensures oldValue == newValue ==> r == s
    decreases |s|
  {
    if |s| < |oldValue| then s
    else if s[..|oldValue|] == oldValue then
      assert s[0] == s[..|oldValue|][0];
      assert s[..|oldValue|] + s[|oldValue|..] == s;
      newValue + Replace(s[|oldValue|..], oldValue, newValue)
    else
      assert [s[0]] + s[1..] == s;
      [s[0]] + Replace(s[1..], oldValue, newValue)
  }

  /** A string without the searched text comes back unchanged. */
  lemma {:induction false} ReplaceAbsent(s: string, oldValue: string, newValue: string)
    requires |oldValue| > 0
    requires !Contains(s, oldValue)
    ensures Replace(s, oldValue, newValue) == s
    decreases |s|
  {
    if |s| >= |oldValue| {
      if s[..|oldValue|] == oldValue {
        assert OccursAt(s, oldValue, 0);
        assert false;
      }
      if Contains(s[1..], oldValue) {
        var i :| 0 <= i <= |s[1..]| - |oldValue| && OccursAt(s[1..], oldValue, i);
        assert s[1..][i..i + |oldValue|] == s[i + 1..i + 1 + |oldValue|];
        assert OccursAt(s, oldValue, i + 1);
        assert false;
      }
      ReplaceAbsent(s[1..], oldValue, newValue);
      assert [s[0]] + s[1..] == s;
    }
  }

  /** A prefix in which the first character of the searched text never occurs is copied through. */
  lemma {:induction false} ReplaceAfterFreePrefix(a: string, s: string, oldValue: string, newValue: string)
    requires |oldValue| > 0 && NoneOf(a, {oldValue[0]})
    ensures Replace(a + s, oldValue, newValue) == a + Replace(s, oldValue, newValue)
    decreases |a|
  {
    if |a| > 0 {
      var t := a + s;
      assert t[0] == a[0];
      assert t[1..] == a[1..] + s;
      ReplaceAfterFreePrefix(a[1..], s, oldValue, newValue);
      if |t| >= |oldValue| {
        assert t[..|oldValue|][0] == a[0] != oldValue[0];
        assert Replace(t, oldValue, newValue) == [a[0]] + Replace(a[1..] + s, oldValue, newValue);
        assert [a[0]] + (a[1..] + Replace(s, oldValue, newValue)) == a + Replace(s, oldValue, newValue);
      } else {
        assert Replace(s, oldValue, newValue) == s;
      }
    } else {
      assert a + s == s;
    }
  }

  /** An occurrence at the start is replaced, and the scan goes on after it. */
  lemma ReplaceAtStart(s: string, oldValue: string, newValue: string)
    requires |oldValue| > 0
    ensures Replace(oldValue + s, oldValue, newValue) == newValue + Replace(s, oldValue, newValue)
  {
    assert (oldValue + s)[..|oldValue|] == oldValue;
    assert (oldValue + s)[|oldValue|..] == s;
  }

  /**
   * A two-character text that starts like a two-character searched text but ends in a
   * character that is neither its second nor its first is copied through.
   */
  lemma ReplaceAfterNearMiss(x: string, s: string, oldValue: string, newValue: string)
    requires |oldValue| == 2 && |x| == 2
    requires x[1] != oldValue[1] && x[1] != oldValue[0]
    ensures Replace(x + s, oldValue, newValue) == x + Replace(s, oldValue, newValue)
  {
    var t := x + s;
    assert t[..2][1] == x[1];
    assert t[1..] == [x[1]] + s;
    ReplaceAfterFreePrefix([x[1]], s, oldValue, newValue);
    assert [x[0]] + [x[1]] == x;
  }

  // ----- split boundaries -----

  /** Every character of `s` is one of `seps`. */
  predicate OnlyOf(s: string, seps: set<char>) {
    forall j :: 0 <= j < |s| ==> s[j] in seps
  }

  /**
   * The first piece of a split is the longest separator-free prefix: the input starts with
   * it, and it ends at the end of the input or at a separator.
   */
  lemma {:induction false} SplitFirstPiece(s: string, seps: set<char>)
    ensures var first := Split(s, seps)[0];
            && |first| <= |s|
            && first == s[..|first|]
            && (|first| < |s| ==> s[|first|] in seps)
    decreases |s|
  {
    if |s| > 0 && s[0] !in seps {
      var rest := Split(s[1..], seps);
      SplitFirstPiece(s[1..], seps);
      var first := [s[0]] + rest[0];
      assert Split(s, seps)[0] == first;
      assert s[1..][..|rest[0]|] == s[1..|first|];
      assert first == s[..|first|];
      if |first| < |s| {
        assert s[|first|] == s[1..][|rest[0]|];
      }
    }
  }

  /** A split yields one piece exactly when the input holds no separator. */
  lemma {:induction false} SplitSingle(s: string, seps: set<char>)
    ensures |Split(s, seps)| == 1 <==> NoneOf(s, seps)
    decreases |s|
  {
    if NoneOf(s, seps) {
      SplitNoSeparator(s, seps);
    } else if |s| > 0 {
      SplitSingle(s[1..], seps);
      if s[0] !in seps {
        var j :| 0 <= j < |s| && s[j] in seps;
        assert s[1..][j - 1] == s[j];
      }
    }
  }

  /**
   * The last piece of a split is the longest separator-free suffix: the input ends with it,
   * and it starts at the start of the input or right after a separator.
   */
  lemma {:induction false} SplitLastPiece(s: string, seps: set<char>)
    ensures var parts := Split(s, seps);
            var last := parts[|parts| - 1];
            && |last| <= |s|
            && last == s[|s| - |last|..]
            && (|last| < |s| ==> s[|s| - |last| - 1] in seps)
    decreases |s|
  {
    if |s| > 0 {
      var rest := Split(s[1..], seps);
      var parts := Split(s, seps);
      SplitLastPiece(s[1..], seps);
      var last := rest[|rest| - 1];
      if s[0] in seps {
        assert parts == [""] + rest;
        assert parts[|parts| - 1] == last;
        assert s[1..][|s| - 1 - |last|..] == s[|s| - |last|..];
        if |last| < |s| - 1 {
          assert s[1..][|s| - 1 - |last| - 1] == s[|s| - |last| - 1];
        }
      } else if |rest| == 1 {
        SplitSingle(s[1..], seps);
        SplitNoSeparator(s[1..], seps);
        assert parts == [[s[0]] + s[1..]];
        assert [s[0]] + s[1..] == s;
      } else {
        assert parts[|parts| - 1] == last;
        assert s[1..][|s| - 1 - |last|..] == s[|s| - |last|..];
        if |last| == |s| - 1 {
          assert last == s[1..];
          SplitNoSeparator(s[1..], seps);
          assert false;
        }
        assert s[1..][|s| - 1 - |last| - 1] == s[|s| - |last| - 1];
      }
    }
  }

  /** A separator cuts a split in two: the pieces before it and the pieces after it. */
  lemma {:induction false} SplitAtSeparator(a: string, c: char, b: string, seps: set<char>)
    requires c in seps
    ensures Split(a + [c] + b, seps) == Split(a, seps) + Split(b, seps)
    decreases |a|
  {
    var s := a + [c] + b;
    if |a| == 0 {
      assert s[1..] == b;
    } else {
      assert s[0] == a[0];
      assert s[1..] == a[1..] + [c] + b;
      SplitAtSeparator(a[1..], c, b, seps);
      var front := Split(a[1..], seps);
      if a[0] !in seps {
        assert (front + Split(b, seps))[1..] == front[1..] + Split(b, seps);
      }
    }
  }

  /**
   * Dropping empty pieces is an order-preserving filter: it distributes over concatenation,
   * drops a lone empty piece and keeps a lone non-empty one.
   */
  lemma {:induction false} RemoveEmptyIsFilter(p: seq<string>, q: seq<string>)
    ensures RemoveEmpty(p + q) == RemoveEmpty(p) + RemoveEmpty(q)
    ensures |p| == 1 ==> RemoveEmpty(p) == (if |p[0]| == 0 then [] else p)
    decreases |p|
  {
    if |p| > 0 {
      var head := if |p[0]| == 0 then [] else [p[0]];
      assert (p + q)[0] == p[0];
      assert (p + q)[1..] == p[1..] + q;
      RemoveEmptyIsFilter(p[1..], q);
      assert RemoveEmpty(p + q) == head + RemoveEmpty(p[1..] + q);
      assert RemoveEmpty(p) == head + RemoveEmpty(p[1..]);
      if |p| == 1 {
        assert p[1..] == [];
      }
    } else {
      assert p + q == q;
    }
  }

  /** Splitting with `RemoveEmptyEntries` at a separator: the pieces before it, then the pieces after it. */
  lemma SplitRemoveEmptyAtSeparator(a: string, c: char, b: string, seps: set<char>)
    requires c in seps
    ensures SplitRemoveEmpty(a + [c] + b, seps) == SplitRemoveEmpty(a, seps) + SplitRemoveEmpty(b, seps)
  {
    SplitAtSeparator(a, c, b, seps);
    RemoveEmptyIsFilter(Split(a, seps), Split(b, seps));
  }

  /** A leading run of separators adds no piece. */
  lemma {:induction false} SplitRemoveEmptySkipsLeadingRun(g: string, b: string, seps: set<char>)
    requires OnlyOf(g, seps)
    ensures SplitRemoveEmpty(g + b, seps) == SplitRemoveEmpty(b, seps)
    decreases |g|
  {
    if |g| > 0 {
      assert g + b == "" + [g[0]] + (g[1..] + b);
      SplitRemoveEmptyAtSeparator("", g[0], g[1..] + b, seps);
      assert SplitRemoveEmpty("", seps) == [];
      SplitRemoveEmptySkipsLeadingRun(g[1..], b, seps);
    } else {
      assert g + b == b;
    }
  }

  /** A trailing run of separators adds no piece. */
  lemma SplitRemoveEmptySkipsTrailingRun(a: string, g: string, seps: set<char>)
    requires OnlyOf(g, seps)
    ensures SplitRemoveEmpty(a + g, seps) == SplitRemoveEmpty(a, seps)
  {
    if |g| > 0 {
      assert a + g == a + [g[0]] + g[1..];
      SplitRemoveEmptyAtSeparator(a, g[0], g[1..], seps);
      assert g[1..] + "" == g[1..];
      SplitRemoveEmptySkipsLeadingRun(g[1..], "", seps);
      assert SplitRemoveEmpty("", seps) == [];
    } else {
      assert a + g == a;
    }
  }

  /** `parts[0] + gaps[0] + parts[1] + … + gaps[n-2] + parts[n-1]`. */
  function Weave(parts: seq<string>, gaps: seq<string>): string
    requires |parts| >= 1 && |gaps| == |parts| - 1
    decreases |parts|
  {
    if |parts| == 1 then parts[0] else parts[0] + gaps[0] + Weave(parts[1..], gaps[1..])
  }

  /**
   * Non-empty separator-free pieces kept apart by non-empty runs of separators split back
   * into exactly those pieces, in order.
   */
  lemma {:induction false} WeaveSplitsBack(parts: seq<string>, gaps: seq<string>, seps: set<char>)
    requires |parts| >= 1 && |gaps| == |parts| - 1
    requires forall i :: 0 <= i < |parts| ==> |parts[i]| > 0 && NoneOf(parts[i], seps)
    requires forall i :: 0 <= i < |gaps| ==> |gaps[i]| > 0 && OnlyOf(gaps[i], seps)
    ensures SplitRemoveEmpty(Weave(parts, gaps), seps) == parts
    decreases |parts|
  {
    SplitNoSeparator(parts[0], seps);
    RemoveEmptyIsFilter([parts[0]], []);
    assert SplitRemoveEmpty(parts[0], seps) == [parts[0]];
    if |parts| > 1 {
      var g := gaps[0];
      var w' := Weave(parts[1..], gaps[1..]);
      assert Weave(parts, gaps) == parts[0] + [g[0]] + (g[1..] + w');
      SplitRemoveEmptyAtSeparator(parts[0], g[0], g[1..] + w', seps);
      assert OnlyOf(g[1..], seps);
      SplitRemoveEmptySkipsLeadingRun(g[1..], w', seps);
      WeaveSplitsBack(parts[1..], gaps[1..], seps);
      assert [parts[0]] + parts[1..] == parts;
    }
  }

  /**
   * The inverse of `SplitRemoveEmpty`: non-empty separator-free pieces, kept apart by
   * non-empty runs of separators and framed by runs of separators that may be empty, split
   * back into exactly those pieces, in order.
   */
  lemma SplitRemoveEmptyWeave(lead: string, parts: seq<string>, gaps: seq<string>, trail: string, seps: set<char>)
    requires |parts| >= 1 && |gaps| == |parts| - 1
    requires forall i :: 0 <= i < |parts| ==> |parts[i]| > 0 && NoneOf(parts[i], seps)
    requires forall i :: 0 <= i < |gaps| ==> |gaps[i]| > 0 && OnlyOf(gaps[i], seps)
    requires OnlyOf(lead, seps) && OnlyOf(trail, seps)
    ensures SplitRemoveEmpty(lead + Weave(parts, gaps) + trail, seps) == parts
  {
    var w := Weave(parts, gaps);
    assert lead + w + trail == lead + (w + trail);
    SplitRemoveEmptySkipsLeadingRun(lead, w + trail, seps);
    SplitRemoveEmptySkipsTrailingRun(w, trail, seps);
    WeaveSplitsBack(parts, gaps, seps);
  }
}
