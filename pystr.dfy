/**
  The Python `str` operations the test-generation loop is built from: `t in s`,
  `s.count(t)`, `s.split(sep)`, `sep.join(parts)`, `s.replace(a, b)`, `s.strip()`,
  `s.split()` and `s.lower()`. Characters are restricted to what these operations
  treat specially in ASCII (whitespace, upper-case letters).
*/
module PyStr {
  import opened Wrappers

  /** `c.isspace()` for ASCII: tab, line feed, vertical tab, form feed, carriage return,
      the separators 0x1c-0x1f and the space. */
  predicate IsSpace(c: char) {
    9 <= c as int <= 13 || 28 <= c as int <= 32
  }

  /** `t` occurs in `s` starting at index `j`. */
  predicate OccursAt(s: string, t: string, j: int) {
    0 <= j && j + |t| <= |s| && s[j..j + |t|] == t
  }

  /** `s.find(t)`: the index of the first occurrence, None for Python's -1
      (`FindFirst` shows that no earlier index holds one). */
  function Find(s: string, t: string): (r: Option<nat>)
    ensures r.Some? ==> OccursAt(s, t, r.value)
    decreases |s|
  {
    if t <= s then
      assert s[0..|t|] == t;
      Some(0)
    else if s == [] then None
    else
      match Find(s[1..], t)
      case None => None
      case Some(i) =>
        assert s[i + 1..i + 1 + |t|] == s[1..][i..i + |t|];
        Some(i + 1)
  }

  /** Every occurrence lies at or after the index `find` reports, so `find` reports
      one whenever there is one. */
  lemma {:induction false} FindFirst(s: string, t: string, j: int)
    requires OccursAt(s, t, j)
    ensures Find(s, t).Some? && Find(s, t).value <= j
    decreases |s|
  {
    if j == 0 {
      assert s[..|t|] == t;
    } else if !(t <= s) {
      assert s[1..][j - 1..j - 1 + |t|] == s[j..j + |t|];
      FindFirst(s[1..], t, j - 1);
    }
  }

  /** Dropping a prefix that lies inside the first part of a concatenation. */
  lemma DropFromConcat(a: string, b: string, k: int)
    requires 0 <= k <= |a|
    ensures (a + b)[k..] == a[k..] + b
  {
  }

  /** Python's `t in s`. */
  predicate Contains(s: string, t: string) {
    Find(s, t).Some?
  }

  lemma ContainsWitness(s: string, t: string, j: int)
    requires OccursAt(s, t, j)
    ensures Contains(s, t)
  {
    FindFirst(s, t, j);
  }

  /** An occurrence inside a slice is an occurrence in the whole string. */
  lemma ContainsSlice(s: string, t: string, lo: int, hi: int)
    requires 0 <= lo <= hi <= |s|
    requires Contains(s[lo..hi], t)
    ensures Contains(s, t)
  {
    var u := s[lo..hi];
    var j := Find(u, t).value;
    assert u[j..j + |t|] == t;
    forall k | 0 <= k < |t| ensures s[lo + j + k] == t[k] {
      assert u[j..j + |t|][k] == u[j + k];
    }
    assert s[lo + j..lo + j + |t|] == t;
    ContainsWitness(s, t, lo + j);
  }

  lemma ContainsConcat(a: string, b: string, t: string)
    requires Contains(a, t) || Contains(b, t)
    ensures Contains(a + b, t)
  {
    if Contains(a, t) {
      assert (a + b)[..|a|] == a;
      ContainsSlice(a + b, t, 0, |a|);
    } else {
      assert (a + b)[|a|..|a + b|] == b;
      ContainsSlice(a + b, t, |a|, |a + b|);
    }
  }

  /** Nothing before the first occurrence contains the pattern. */
  lemma BeforeFirstIsFree(s: string, t: string)
    requires t != [] && Find(s, t).Some?
    ensures !Contains(s[..Find(s, t).value], t)
  {
    var i := Find(s, t).value;
    if Contains(s[..i], t) {
      var j := Find(s[..i], t).value;
      assert s[..i][j..j + |t|] == s[j..j + |t|];
      FindFirst(s, t, j);
    }
  }

  /** `s.count(t)`: non-overlapping occurrences, scanned left to right. */
  function Count(s: string, t: string): (n: nat)
    requires t != []
    decreases |s|
  {
    if s == [] then 0
    else if t <= s then 1 + Count(s[|t|..], t)
    else Count(s[1..], t)
  }

  /** `s.split(sep)`: the pieces between the occurrences of `sep`. */
  function Split(s: string, sep: string): (parts: seq<string>)
    requires sep != []
    ensures |parts| >= 1
    decreases |s|
  {
    match Find(s, sep)
    case None => [s]
    case Some(i) => [s[..i]] + Split(s[i + |sep|..], sep)
  }

  /** `sep.join(parts)`. */
  function Join(parts: seq<string>, sep: string): string
  {
    if |parts| == 0 then ""
    else if |parts| == 1 then parts[0]
    else parts[0] + sep + Join(parts[1..], sep)
  }

  lemma JoinCons(p: string, rest: seq<string>, sep: string)
    requires |rest| >= 1
    ensures Join([p] + rest, sep) == p + sep + Join(rest, sep)
  {
    assert ([p] + rest)[1..] == rest;
  }

  /** Joining the pieces of a split with the same separator gives the string back. */
  lemma {:induction false} SplitJoin(s: string, sep: string)
    requires sep != []
    ensures Join(Split(s, sep), sep) == s
    decreases |s|
  {
    match Find(s, sep)
    case None =>
    case Some(i) =>
      var rest := s[i + |sep|..];
      var parts := Split(rest, sep);
      SplitJoin(rest, sep);
      assert Split(s, sep) == [s[..i]] + parts;
      JoinCons(s[..i], parts, sep);
      SplitAround(s, sep, i);
  }

  /** A string is the part before an occurrence, the occurrence and the part after. */
  lemma SplitAround(s: string, t: string, i: int)
    requires OccursAt(s, t, i)
    ensures s[..i] + t + s[i + |t|..] == s
  {
    assert s[..i] + s[i..] == s;
    assert s[i..i + |t|] + s[i + |t|..] == s[i..];
  }

  /** A split has a second piece exactly when the separator occurs. */
  lemma SplitHasSecond(s: string, sep: string)
    requires sep != []
    ensures |Split(s, sep)| >= 2 <==> Contains(s, sep)
  {
  }

  /** No piece of a split contains the separator. */
  lemma {:induction false} SplitPiecesFree(s: string, sep: string)
    requires sep != []
    ensures forall k :: 0 <= k < |Split(s, sep)| ==> !Contains(Split(s, sep)[k], sep)
    decreases |s|
  {
    match Find(s, sep)
    case None =>
    case Some(i) =>
      var rest := s[i + |sep|..];
      BeforeFirstIsFree(s, sep);
      SplitPiecesFree(rest, sep);
      var parts := Split(s, sep);
      assert parts == [s[..i]] + Split(rest, sep);
      forall k | 0 <= k < |parts| ensures !Contains(parts[k], sep) {
        if k > 0 { assert parts[k] == Split(rest, sep)[k - 1]; }
      }
  }

  /** The first piece of `a + sep + b` is `a` when `a + sep` holds no earlier occurrence. */
  lemma SplitFirstPiece(a: string, sep: string, b: string)
    requires sep != [] && !Contains(a + sep[..|sep| - 1], sep)
    ensures Find(a + sep + b, sep) == Some(|a|)
    ensures Split(a + sep + b, sep)[0] == a
    ensures Split(a + sep + b, sep)[1..] == Split(b, sep)
  {
    var s := a + sep + b;
    assert OccursAt(s, sep, |a|) by { assert s[|a|..|a| + |sep|] == sep; }
    FindFirst(s, sep, |a|);
    var i := Find(s, sep).value;
    if i < |a| {
      var pre := a + sep[..|sep| - 1];
      forall k | 0 <= k < |sep| ensures pre[i + k] == sep[k] {
        assert s[i..i + |sep|][k] == sep[k];
        if i + k < |a| {
          assert s[i + k] == a[i + k] == pre[i + k];
        } else {
          assert s[i + k] == sep[i + k - |a|] == pre[i + k];
        }
      }
      assert pre[i..i + |sep|] == sep;
      ContainsWitness(pre, sep, i);
    }
    assert s[|a| + |sep|..] == b;
  }

  /** Removing a border-free pattern from a string that ends with its only occurrence
      leaves what comes before it. */
  lemma DropOnlyOccurrence(a: string, t: string)
    requires t != [] && BorderFree(t) && !Contains(a, t)
    ensures Replace(a + t, t, "") == a
  {
    var s := a + t;
    NoStraddle(a, t);
    assert s + "" == s;
    SplitFirstPiece(a, t, "");
    assert Find(s, t) == Some(|a|);
    assert s[..|a|] == a;
    assert s[|a| + |t|..] == "";
    assert Replace("", t, "") == "";
  }

  /** Unfolding `Split` at the first occurrence of the separator. */
  lemma SplitUnfold(s: string, sep: string, i: nat)
    requires sep != [] && Find(s, sep) == Some(i)
    ensures Split(s, sep) == [s[..i]] + Split(s[i + |sep|..], sep)
  {
  }

  /** A pattern none of whose proper prefixes is also a suffix (no border) cannot start
      inside a string that does not contain it and end inside the pattern itself. */
  predicate BorderFree(t: string) {
    forall k :: 0 < k < |t| ==> t[..k] != t[|t| - k..]
  }

  lemma NoStraddle(a: string, t: string)
    requires t != [] && BorderFree(t) && !Contains(a, t)
    ensures !Contains(a + t[..|t| - 1], t)
  {
    var pre := a + t[..|t| - 1];
    if Contains(pre, t) {
      var j := Find(pre, t).value;
      if j + |t| <= |a| {
        assert pre[j..j + |t|] == a[j..j + |t|];
        ContainsWitness(a, t, j);
      } else {
        StraddleIsBorder(a, t, j);
      }
    }
  }

  /** An occurrence of `t` that starts in `a` and ends in `t[..|t| - 1]` exhibits a border of `t`. */
  lemma StraddleIsBorder(a: string, t: string, j: int)
    requires t != [] && j < |a| < j + |t| && OccursAt(a + t[..|t| - 1], t, j)
    ensures var k := j + |t| - |a|; t[..k] == t[|t| - k..]
  {
    var pre := a + t[..|t| - 1];
    var k := j + |t| - |a|;
    assert pre[|a|..j + |t|] == t[..k];
    assert pre[j..j + |t|][|t| - k..] == pre[|a|..j + |t|];
  }

  /** `s.replace(pat, rep)`: every occurrence, left to right, without overlap. */
  function Replace(s: string, pat: string, rep: string): string
    requires pat != []
    decreases |s|
  {
    match Find(s, pat)
    case None => s
    case Some(i) => s[..i] + rep + Replace(s[i + |pat|..], pat, rep)
  }

  /** Python documents `s.replace(a, b)` as `b.join(s.split(a))`; the two definitions agree. */
  lemma {:induction false} ReplaceIsJoinOfSplit(s: string, pat: string, rep: string)
    requires pat != []
    ensures Replace(s, pat, rep) == Join(Split(s, pat), rep)
    decreases |s|
  {
    match Find(s, pat)
    case None =>
    case Some(i) =>
      var rest := s[i + |pat|..];
      var parts := Split(rest, pat);
      ReplaceIsJoinOfSplit(rest, pat, rep);
      ReplaceUnfold(s, pat, rep, i);
      SplitUnfold(s, pat, i);
      JoinCons(s[..i], parts, rep);
  }

  /** Unfolding `Replace` at the first occurrence of the pattern. */
  lemma ReplaceUnfold(s: string, pat: string, rep: string, i: nat)
    requires pat != [] && Find(s, pat) == Some(i)
    ensures Replace(s, pat, rep) == s[..i] + rep + Replace(s[i + |pat|..], pat, rep)
  {
  }

  /** `s.lstrip()`. */
  function LStrip(s: string): (r: string)
    ensures |r| <= |s|
  {
    if s != [] && IsSpace(s[0]) then LStrip(s[1..]) else s
  }

  /** `lstrip` keeps a suffix that does not start with whitespace and drops only
      whitespace. */
  lemma {:induction false} LStripKeepsSuffix(s: string)
    ensures LStrip(s) == s[|s| - |LStrip(s)|..]
    ensures LStrip(s) != [] ==> !IsSpace(LStrip(s)[0])
    ensures forall k :: 0 <= k < |s| - |LStrip(s)| ==> IsSpace(s[k])
  {
    if s != [] && IsSpace(s[0]) {
      LStripKeepsSuffix(s[1..]);
      assert s[1..][|s| - 1 - |LStrip(s)|..] == s[|s| - |LStrip(s)|..];
      forall k | 0 < k < |s| - |LStrip(s)| ensures IsSpace(s[k]) {
        assert s[k] == s[1..][k - 1];
      }
    }
  }

  /** `s.rstrip()`. */
  function RStrip(s: string): (r: string)
    ensures |r| <= |s|
  {
    if s != [] && IsSpace(s[|s| - 1]) then RStrip(s[..|s| - 1]) else s
  }

  /** `rstrip` keeps a prefix that does not end with whitespace and drops only
      whitespace. */
  lemma {:induction false} RStripKeepsPrefix(s: string)
    ensures RStrip(s) == s[..|RStrip(s)|]
    ensures RStrip(s) != [] ==> !IsSpace(RStrip(s)[|RStrip(s)| - 1])
    ensures forall k :: |RStrip(s)| <= k < |s| ==> IsSpace(s[k])
  {
    if s != [] && IsSpace(s[|s| - 1]) {
      RStripKeepsPrefix(s[..|s| - 1]);
      assert s[..|s| - 1][..|RStrip(s)|] == s[..|RStrip(s)|];
      forall k | |RStrip(s)| <= k < |s| - 1 ensures IsSpace(s[k]) {
        assert s[k] == s[..|s| - 1][k];
      }
    }
  }

  /** `s.strip()`. */
  function Strip(s: string): string
  {
    RStrip(LStrip(s))
  }

  /** What `strip()` keeps is a slice of the input that neither starts nor ends with
      whitespace, and everything it drops is whitespace. */
  lemma StripSlice(s: string)
    ensures var r := Strip(s); var lo := |s| - |LStrip(s)|;
      && lo + |r| <= |s| && r == s[lo..lo + |r|]
      && (r != [] ==> !IsSpace(r[0]) && !IsSpace(r[|r| - 1]))
      && (forall k :: 0 <= k < lo ==> IsSpace(s[k]))
      && (forall k :: lo + |r| <= k < |s| ==> IsSpace(s[k]))
  {
    var l := LStrip(s);
    var r := RStrip(l);
    var lo := |s| - |l|;
    LStripKeepsSuffix(s);
    RStripKeepsPrefix(l);
    assert r == s[lo..][..|r|];
    if r != [] { assert r[0] == l[0]; }
    forall k | lo + |r| <= k < |s| ensures IsSpace(s[k]) {
      assert s[k] == l[k - lo];
    }
  }

  /** The stripped text is a slice of the input. */
  lemma StripIsSlice(s: string) returns (lo: nat)
    ensures lo + |Strip(s)| <= |s| && Strip(s) == s[lo..lo + |Strip(s)|]
  {
    var l := LStrip(s);
    LStripKeepsSuffix(s);
    RStripKeepsPrefix(l);
    lo := |s| - |l|;
    assert Strip(s) == s[lo..][..|Strip(s)|];
  }

  lemma StripKeepsNoNewOccurrence(s: string, t: string)
    requires Contains(Strip(s), t)
    ensures Contains(s, t)
  {
    var lo := StripIsSlice(s);
    ContainsSlice(s, t, lo, lo + |Strip(s)|);
  }

  /** Stripping cannot create an occurrence the input did not have. */
  lemma StripKeepsAbsence(s: string, t: string)
    requires !Contains(s, t)
    ensures !Contains(Strip(s), t)
  {
    if Contains(Strip(s), t) { StripKeepsNoNewOccurrence(s, t); }
  }

  /** A string that neither starts nor ends with whitespace is its own strip. */
  lemma StripTrimmed(r: string)
    requires r != [] ==> !IsSpace(r[0]) && !IsSpace(r[|r| - 1])
    ensures Strip(r) == r
  {
  }

  lemma StripIdempotent(s: string)
    ensures Strip(Strip(s)) == Strip(s)
  {
    StripSlice(s);
    StripTrimmed(Strip(s));
  }

  /** A word of `s.split()`: non-empty, without whitespace. */
  predicate IsWord(w: string) {
    w != [] && forall k :: 0 <= k < |w| ==> !IsSpace(w[k])
  }

  /** `s` holds no whitespace character. */
  predicate SpaceFree(s: string) {
    forall k :: 0 <= k < |s| ==> !IsSpace(s[k])
  }

  lemma SpaceFreeConcat(a: string, b: string)
    requires SpaceFree(a) && SpaceFree(b)
    ensures SpaceFree(a + b)
  {
    forall k | 0 <= k < |a + b| ensures !IsSpace((a + b)[k]) {
      if k >= |a| { assert (a + b)[k] == b[k - |a|]; }
    }
  }

  lemma SpaceFreeSlice(s: string, lo: int, hi: int)
    requires SpaceFree(s) && 0 <= lo <= hi <= |s|
    ensures SpaceFree(s[lo..hi])
  {
    forall k | 0 <= k < hi - lo ensures !IsSpace(s[lo..hi][k]) {
      assert s[lo..hi][k] == s[lo + k];
    }
  }

  /** The longest prefix without whitespace. */
  function LeadingWord(s: string): (w: string)
    ensures |w| <= |s|
  {
    if s == [] || IsSpace(s[0]) then [] else [s[0]] + LeadingWord(s[1..])
  }

  /** `LeadingWord` is a whitespace-free prefix followed by whitespace or the end. */
  lemma {:induction false} LeadingWordIsLongest(s: string)
    ensures LeadingWord(s) == s[..|LeadingWord(s)|]
    ensures SpaceFree(LeadingWord(s))
    ensures |LeadingWord(s)| < |s| ==> IsSpace(s[|LeadingWord(s)|])
  {
    if s != [] && !IsSpace(s[0]) {
      LeadingWordIsLongest(s[1..]);
      var w := LeadingWord(s);
      assert w == [s[0]] + LeadingWord(s[1..]);
      forall k | 0 < k < |w| ensures !IsSpace(w[k]) {
        assert w[k] == LeadingWord(s[1..])[k - 1];
      }
      if |w| < |s| { assert s[|w|] == s[1..][|w| - 1]; }
    }
  }

  /** `s.split()` with no separator: the maximal runs of non-whitespace. */
  function Words(s: string): (ws: seq<string>)
    ensures forall k :: 0 <= k < |ws| ==> IsWord(ws[k])
    decreases |s|
  {
    var t := LStrip(s);
    if t == [] then []
    else
      var w := LeadingWord(t);
      if w == [] then []
      else
        LeadingWordIsLongest(t);
        [w] + Words(t[|w|..])
  }

  /** `" ".join(ws).split()` gives back `ws` when every element is a word. */
  lemma {:induction false} WordsOfJoin(ws: seq<string>)
    requires forall k :: 0 <= k < |ws| ==> IsWord(ws[k])
    ensures Words(Join(ws, " ")) == ws
  {
    if |ws| == 0 {
    } else if |ws| == 1 {
      WordsOfWordThen(ws[0], "");
      assert ws[0] + "" == ws[0];
    } else {
      var tail := ws[1..];
      var rest := Join(tail, " ");
      JoinCons(ws[0], tail, " ");
      assert ws == [ws[0]] + tail;
      assert Join(ws, " ") == ws[0] + (" " + rest);
      WordsOfJoin(tail);
      JoinStartsWithWord(tail);
      WordsOfWordThen(ws[0], " " + rest);
      WordsAfterSpace(rest);
    }
  }

  lemma WordsAfterSpace(rest: string)
    requires rest != [] && !IsSpace(rest[0])
    ensures Words(" " + rest) == Words(rest)
  {
    assert (" " + rest)[1..] == rest;
    assert LStrip(" " + rest) == LStrip(rest);
  }

  /** A word followed by nothing or by whitespace is the first word. */
  lemma WordsOfWordThen(w: string, tail: string)
    requires IsWord(w) && (tail == [] || IsSpace(tail[0]))
    ensures Words(w + tail) == [w] + Words(tail)
  {
    LeadingWordOf(w, tail);
    assert (w + tail)[|w|..] == tail;
    assert LStrip(w + tail) == w + tail;
    if tail != [] {
      assert LStrip(tail) == LStrip(tail[1..]);
    }
  }

  lemma {:induction false} LeadingWordOf(w: string, tail: string)
    requires IsWord(w) && (tail == [] || IsSpace(tail[0]))
    ensures LeadingWord(w + tail) == w
    decreases |w|
  {
    if |w| > 1 {
      assert (w + tail)[1..] == w[1..] + tail;
      LeadingWordOf(w[1..], tail);
    } else {
      assert (w + tail)[1..] == tail;
    }
  }

  lemma JoinStartsWithWord(ws: seq<string>)
    requires |ws| >= 1 && forall k :: 0 <= k < |ws| ==> IsWord(ws[k])
    ensures Join(ws, " ") != [] && !IsSpace(Join(ws, " ")[0])
  {
    if |ws| > 1 { assert Join(ws, " ")[0] == ws[0][0]; }
  }

  /** `c.lower()` for ASCII. */
  function LowerChar(c: char): char {
    if 'A' <= c <= 'Z' then (c as int + 32) as char else c
  }

  /** `s.lower()` for ASCII. */
  function Lower(s: string): (r: string)
    ensures |r| == |s|
    ensures forall k :: 0 <= k < |r| ==> !('A' <= r[k] <= 'Z')
    ensures forall k :: 0 <= k < |s| && !('A' <= s[k] <= 'Z') ==> r[k] == s[k]
    ensures forall k :: 0 <= k < |s| && 'A' <= s[k] <= 'Z' ==> r[k] as int == s[k] as int + ('a' as int - 'A' as int)
  {
    seq(|s|, k requires 0 <= k < |s| => LowerChar(s[k]))
  }
}
