/** The few Python string operations the application relies on, over `seq<char>`:
    `str.replace`, `str.split`, `str.join` and `str.title`, with the facts about
    them that the rest of the model uses. */
module Text {

  /** `x` occurs in `s` as a contiguous substring (Python's `x in s`). */
  ghost predicate Contains(s: string, x: string) {
    exists i :: OccursAt(s, x, i)
  }

  /** `x` occurs in `s` starting at index `i`. */
  ghost predicate OccursAt(s: string, x: string, i: int) {
    0 <= i <= |s| - |x| && s[i..i + |x|] == x
  }

  /** Python's `s.replace(pat, rep)`: every occurrence of `pat`, found scanning
      left to right without overlap, is replaced by `rep`. Every pattern the
      application uses is non-empty. A replacement as long as the pattern keeps
      the length of the text. */
  function Replace(s: string, pat: string, rep: string): (r: string)
    requires pat != []
    ensures |rep| == |pat| ==> |r| == |s|
    decreases |s|
  {
    if |s| < |pat| then s
    else if s[..|pat|] == pat then rep + Replace(s[|pat|..], pat, rep)
    else [s[0]] + Replace(s[1..], pat, rep)
  }

  /** Python's `sep.join(parts)`; `parts` is never empty when it comes from `Split`. */
  function Join(parts: seq<string>, sep: string): (r: string)
    requires parts != []
    ensures parts[0] <= r
  {
    if |parts| == 1 then parts[0] else parts[0] + (sep + Join(parts[1..], sep))
  }

  /** A join of two or more parts is the first part, the separator, and the join of the rest. */
  lemma JoinStep(parts: seq<string>, sep: string)
    requires |parts| >= 2
    ensures Join(parts, sep) == parts[0] + sep + Join(parts[1..], sep)
  {
  }

  lemma JoinTwo(a: string, b: string, sep: string)
    ensures Join([a, b], sep) == a + sep + b
  {
    JoinStep([a, b], sep);
  }

  lemma JoinThree(a: string, b: string, c: string, sep: string)
    ensures Join([a, b, c], sep) == a + sep + b + sep + c
  {
    JoinStep([a, b, c], sep);
    JoinTwo(b, c, sep);
    assert [a, b, c][1..] == [b, c];
  }

  /** Python's `s.split(pat)` for a non-empty `pat`: the pieces between the
      occurrences that `Replace` would replace. */
  function Split(s: string, pat: string): (parts: seq<string>)
    requires pat != []
    ensures parts != []
    decreases |s|
  {
    if |s| < |pat| then [s]
    else if s[..|pat|] == pat then [[]] + Split(s[|pat|..], pat)
    else
      var rest := Split(s[1..], pat);
      [[s[0]] + rest[0]] + rest[1..]
  }

  /** Writing `rep` anywhere cannot form an occurrence of the two-character `q`:
      `rep` holds none, and neither of its ends can pair up with a neighbour. */
  ghost predicate Inert(rep: string, q: string) {
    |q| == 2 && rep != [] && !Contains(rep, q) && rep[0] != q[1] && rep[|rep| - 1] != q[0]
  }

  // ---------------------------------------------------------------------------
  // Occurrences in concatenations

  lemma ContainsInParts(u: string, v: string, x: string)
    ensures Contains(u, x) ==> Contains(u + v, x)
    ensures Contains(v, x) ==> Contains(u + v, x)
  {
    if Contains(u, x) {
      var i :| OccursAt(u, x, i);
      assert (u + v)[i..i + |x|] == u[i..i + |x|];
      assert OccursAt(u + v, x, i);
    }
    if Contains(v, x) {
      var i :| OccursAt(v, x, i);
      assert (u + v)[|u| + i..|u| + i + |x|] == v[i..i + |x|];
      assert OccursAt(u + v, x, |u| + i);
    }
  }

  /** An occurrence of a two-character string in `u + v` lies in `u`, in `v`,
      or straddles the seam. */
  lemma ContainsAcrossSeam(u: string, v: string, x: string)
    requires |x| == 2
    ensures Contains(u + v, x) ==>
              || Contains(u, x) || Contains(v, x)
              || (u != [] && v != [] && u[|u| - 1] == x[0] && v[0] == x[1])
  {
    if Contains(u + v, x) {
      var i :| OccursAt(u + v, x, i);
      if i + 2 <= |u| {
        assert u[i..i + 2] == (u + v)[i..i + 2];
        assert OccursAt(u, x, i);
      } else if i >= |u| {
        assert v[i - |u|..i - |u| + 2] == (u + v)[i..i + 2];
        assert OccursAt(v, x, i - |u|);
      } else {
        assert (u + v)[i..i + 2][0] == u[|u| - 1] && (u + v)[i..i + 2][1] == v[0];
      }
    }
  }

  /** A single character holds no two-character string. */
  lemma NotInSingle(c: char, x: string)
    requires |x| == 2
    ensures !Contains([c], x)
  {
  }

  /** A two-character string is absent when no adjacent pair of characters spells it. */
  lemma NoAdjacentPair(s: string, x: string)
    requires |x| == 2
    requires forall i :: 0 <= i < |s| - 1 ==> !(s[i] == x[0] && s[i + 1] == x[1])
    ensures !Contains(s, x)
  {
    forall i | 0 <= i <= |s| - 2 ensures !OccursAt(s, x, i) {
      assert s[i..i + 2] == [s[i], s[i + 1]];
    }
  }

  lemma ContainsInSuffix(s: string, n: nat, x: string)
    requires n <= |s| && Contains(s[n..], x)
    ensures Contains(s, x)
  {
    assert s == s[..n] + s[n..];
    ContainsInParts(s[..n], s[n..], x);
  }

  lemma PairAtStart(s: string, x: string)
    requires |x| == 2 && |s| >= 2 && s[0] == x[0] && s[1] == x[1]
    ensures Contains(s, x)
  {
    assert s[0..2] == x;
    assert OccursAt(s, x, 0);
  }

  /** The first character of a replacement's output comes from the input or from `rep`. */
  lemma ReplaceHead(s: string, pat: string, rep: string)
    requires pat != [] && rep != [] && s != []
    ensures Replace(s, pat, rep) != []
    ensures Replace(s, pat, rep)[0] == s[0] || Replace(s, pat, rep)[0] == rep[0]
  {
  }

  // ---------------------------------------------------------------------------
  // What `Replace` guarantees

  /** Text without the pattern comes back unchanged. */
  lemma {:induction false} ReplaceIdentity(s: string, pat: string, rep: string)
    requires pat != [] && !Contains(s, pat)
    ensures Replace(s, pat, rep) == s
    decreases |s|
  {
    if |s| >= |pat| {
      assert s[..|pat|] != pat by {
        assert !OccursAt(s, pat, 0);
        assert s[0..|pat|] == s[..|pat|];
      }
      assert !Contains(s[1..], pat) by {
        if Contains(s[1..], pat) { ContainsInSuffix(s, 1, pat); }
      }
      ReplaceIdentity(s[1..], pat, rep);
      assert s == [s[0]] + s[1..];
    }
  }

  /** After replacing a two-character pattern by an inert text, no occurrence is left. */
  lemma {:induction false} ReplaceRemovesAll(s: string, pat: string, rep: string)
    requires Inert(rep, pat)
    ensures !Contains(Replace(s, pat, rep), pat)
    decreases |s|
  {
    var r := Replace(s, pat, rep);
    if |s| < 2 {
      assert r == s;
    } else if s[..2] == pat {
      var rest := Replace(s[2..], pat, rep);
      ReplaceRemovesAll(s[2..], pat, rep);
      assert r == rep + rest;
      ContainsAcrossSeam(rep, rest, pat);
    } else {
      var rest := Replace(s[1..], pat, rep);
      ReplaceRemovesAll(s[1..], pat, rep);
      assert r == [s[0]] + rest;
      ReplaceHead(s[1..], pat, rep);
      assert s[..2] == [s[0], s[1]];
      NotInSingle(s[0], pat);
      ContainsAcrossSeam([s[0]], rest, pat);
    }
  }

  /** Replacing any pattern by a text inert for `q` cannot create an occurrence of `q`. */
  lemma {:induction false} ReplaceKeepsAbsent(s: string, pat: string, rep: string, q: string)
    requires pat != [] && Inert(rep, q) && !Contains(s, q)
    ensures !Contains(Replace(s, pat, rep), q)
    decreases |s|
  {
    var r := Replace(s, pat, rep);
    if |s| < |pat| {
      assert r == s;
    } else if s[..|pat|] == pat {
      var rest := Replace(s[|pat|..], pat, rep);
      assert !Contains(s[|pat|..], q) by {
        if Contains(s[|pat|..], q) { ContainsInSuffix(s, |pat|, q); }
      }
      ReplaceKeepsAbsent(s[|pat|..], pat, rep, q);
      assert r == rep + rest;
      ContainsAcrossSeam(rep, rest, q);
    } else {
      var rest := Replace(s[1..], pat, rep);
      assert !Contains(s[1..], q) by {
        if Contains(s[1..], q) { ContainsInSuffix(s, 1, q); }
      }
      ReplaceKeepsAbsent(s[1..], pat, rep, q);
      assert r == [s[0]] + rest;
      NotInSingle(s[0], q);
      ContainsAcrossSeam([s[0]], rest, q);
      if rest != [] {
        ReplaceHead(s[1..], pat, rep);
        if s[0] == q[0] && rest[0] == s[1] && s[1] == q[1] { PairAtStart(s, q); }
      }
    }
  }

  /** Replacing one character by another works character by character. */
  lemma {:induction false} ReplaceChar(s: string, a: char, b: char)
    ensures |Replace(s, [a], [b])| == |s|
    ensures forall i :: 0 <= i < |s| ==> Replace(s, [a], [b])[i] == (if s[i] == a then b else s[i])
    decreases |s|
  {
    if s != [] {
      ReplaceChar(s[1..], a, b);
      assert s[..1] == [s[0]];
      assert s[1..] == s[|[a]|..];
    }
  }

  /** A prefix free of the pattern, which cannot complete an occurrence with
      what follows it, is copied through unchanged. */
  lemma {:induction false} ReplaceAfterFreePrefix(u: string, t: string, pat: string, rep: string)
    requires |pat| == 2 && !Contains(u, pat)
    requires u != [] && t != [] ==> !(u[|u| - 1] == pat[0] && t[0] == pat[1])
    ensures Replace(u + t, pat, rep) == u + Replace(t, pat, rep)
    decreases |u|
  {
    if u == [] {
      assert u + t == t;
    } else if |u + t| < 2 {
      assert t == [] && u + t == u;
    } else {
      var s := u + t;
      var rest := Replace(t, pat, rep);
      NoOccurrenceAtSeamStart(u, t, pat);
      assert Replace(s, pat, rep) == [s[0]] + Replace(s[1..], pat, rep);
      assert s[1..] == u[1..] + t;
      FreePrefixTail(u, t, pat);
      ReplaceAfterFreePrefix(u[1..], t, pat, rep);
      assert [u[0]] + (u[1..] + rest) == u + rest by {
        assert u == [u[0]] + u[1..];
      }
    }
  }

  /** Dropping the first character of such a prefix keeps both conditions. */
  lemma FreePrefixTail(u: string, t: string, pat: string)
    requires |pat| == 2 && !Contains(u, pat) && u != []
    requires t != [] ==> !(u[|u| - 1] == pat[0] && t[0] == pat[1])
    ensures !Contains(u[1..], pat)
    ensures u[1..] != [] && t != [] ==> !(u[1..][|u[1..]| - 1] == pat[0] && t[0] == pat[1])
  {
    if Contains(u[1..], pat) { ContainsInSuffix(u, 1, pat); }
  }

  lemma NoOccurrenceAtSeamStart(u: string, t: string, pat: string)
    requires |pat| == 2 && !Contains(u, pat) && u != [] && |u + t| >= 2
    requires t != [] ==> !(u[|u| - 1] == pat[0] && t[0] == pat[1])
    ensures (u + t)[..2] != pat
  {
    if |u| >= 2 {
      assert !OccursAt(u, pat, 0);
      assert (u + t)[..2] == u[0..2];
    } else {
      assert (u + t)[..2] == [u[0], t[0]];
    }
  }

  lemma ReplaceAtPattern(t: string, pat: string, rep: string)
    requires |pat| == 2
    ensures Replace(pat + t, pat, rep) == rep + Replace(t, pat, rep)
  {
    assert (pat + t)[..2] == pat;
    assert (pat + t)[2..] == t;
  }

  /** Replacing the separator of a join of pattern-free pieces swaps the separator. */
  lemma {:induction false} ReplaceJoin(parts: seq<string>, pat: string, rep: string)
    requires |pat| == 2 && pat[0] != pat[1] && parts != []
    requires forall p :: p in parts ==> !Contains(p, pat)
    ensures Replace(Join(parts, pat), pat, rep) == Join(parts, rep)
    decreases |parts|
  {
    if |parts| == 1 {
      ReplaceIdentity(parts[0], pat, rep);
    } else {
      var tail := Join(parts[1..], pat);
      assert parts[0] in parts;
      ReplaceAfterFreePrefix(parts[0], pat + tail, pat, rep);
      ReplaceAtPattern(tail, pat, rep);
      assert forall p :: p in parts[1..] ==> p in parts;
      ReplaceJoin(parts[1..], pat, rep);
    }
  }

  /** Splitting and joining with the same separator gives back the text. */
  lemma {:induction false} JoinSplit(s: string, pat: string)
    requires pat != []
    ensures Join(Split(s, pat), pat) == s
    decreases |s|
  {
    if |s| < |pat| {
    } else if s[..|pat|] == pat {
      var rest := Split(s[|pat|..], pat);
      JoinSplit(s[|pat|..], pat);
      assert ([[]] + rest)[1..] == rest;
      assert s == s[..|pat|] + s[|pat|..];
    } else {
      var rest := Split(s[1..], pat);
      JoinSplit(s[1..], pat);
      var parts := [[s[0]] + rest[0]] + rest[1..];
      assert parts[1..] == rest[1..];
      assert s == [s[0]] + s[1..];
    }
  }

  /** No piece of a split by a two-character pattern contains the pattern. */
  lemma {:induction false} SplitPiecesFree(s: string, pat: string)
    requires |pat| == 2
    ensures forall p :: p in Split(s, pat) ==> !Contains(p, pat)
    decreases |s|
  {
    if |s| < 2 {
    } else if s[..2] == pat {
      var rest := Split(s[2..], pat);
      SplitPiecesFree(s[2..], pat);
      assert !Contains([], pat);
      assert forall p :: p in [[]] + rest ==> p == [] || p in rest;
    } else {
      var rest := Split(s[1..], pat);
      SplitPiecesFree(s[1..], pat);
      JoinSplit(s[1..], pat);
      var first := [s[0]] + rest[0];
      assert rest[0] in rest;
      assert !Contains(first, pat) by {
        NotInSingle(s[0], pat);
        ContainsAcrossSeam([s[0]], rest[0], pat);
        if rest[0] != [] {
          assert rest[0][0] == s[1..][0];
          assert s[..2] == [s[0], s[1]];
        }
      }
      assert forall p :: p in [first] + rest[1..] ==> p == first || p in rest;
    }
  }

  /** Python's identity `s.replace(p, r) == r.join(s.split(p))` for a two-character
      pattern whose characters differ: every occurrence, wherever it stands, is
      replaced, and the text between occurrences is kept as it is. */
  lemma {:induction false} ReplaceIsSplitJoin(s: string, pat: string, rep: string)
    requires |pat| == 2 && pat[0] != pat[1]
    ensures Replace(s, pat, rep) == Join(Split(s, pat), rep)
  {
    JoinSplit(s, pat);
    SplitPiecesFree(s, pat);
    ReplaceJoin(Split(s, pat), pat, rep);
  }

  // ---------------------------------------------------------------------------
  // Python's str.title, for ASCII letters

  predicate IsAsciiLetter(c: char) {
    'a' <= c <= 'z' || 'A' <= c <= 'Z'
  }

  function ToUpper(c: char): char {
    if 'a' <= c <= 'z' then (c as int - 32) as char else c
  }

  function ToLower(c: char): char {
    if 'A' <= c <= 'Z' then (c as int + 32) as char else c
  }

  /** The rule `str.title` applies to one character: a letter is upper-cased when
      the character before it is not a letter, and lower-cased otherwise. */
  function TitleChar(c: char, afterLetter: bool): char {
    if !IsAsciiLetter(c) then c else if afterLetter then ToLower(c) else ToUpper(c)
  }

  /** The character before position `i` of `s` is a letter. */
  predicate AfterLetter(s: string, i: int) {
    0 < i <= |s| && IsAsciiLetter(s[i - 1])
  }

  function TitleAfter(s: string, afterLetter: bool): (r: string)
    ensures |r| == |s|
    ensures forall i {:trigger r[i]} :: 0 <= i < |s| ==>
              r[i] == TitleChar(s[i], if i == 0 then afterLetter else AfterLetter(s, i))
  {
    if s == [] then []
    else [TitleChar(s[0], afterLetter)] + TitleAfter(s[1..], IsAsciiLetter(s[0]))
  }

  /** Python's `s.title()`: each word starts upper-case and continues lower-case. */
  function Title(s: string): (r: string)
    ensures |r| == |s|
    ensures forall i {:trigger r[i]} :: 0 <= i < |s| ==> r[i] == TitleChar(s[i], AfterLetter(s, i))
  {
    TitleAfter(s, false)
  }
}
