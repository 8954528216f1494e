/** The string operations of the .NET runtime that the record store relies on:
    StartsWith, EndsWith, Contains, Replace, Split, the separator join that the
    encoder builds by hand, and the line splitting of StreamReader.ReadLine.
    All of them compare character by character; .NET's StartsWith and EndsWith
    compare by the current culture instead, which the model does not follow.
    Strings are sequences of Unicode scalar values, here `seq<char>`. */
module Text {

  /** `s.StartsWith(p)`, compared character by character (not by culture). */
  predicate StartsWith(s: string, p: string) {
    |p| <= |s| && s[..|p|] == p
  }

  /** `s.EndsWith(p)`, compared character by character (not by culture). */
  predicate EndsWith(s: string, p: string) {
    |p| <= |s| && s[|s| - |p|..] == p
  }

  /** `s.Contains(p)`: `p` occurs at some position of `s`. */
  predicate Contains(s: string, p: string)
    decreases |s|
  {
    StartsWith(s, p) || (s != [] && Contains(s[1..], p))
  }

  /** A marker of the line format: it opens with '<', closes with '>', and has
      neither character anywhere in between. Every tag, the field separator and
      the break sentinel have this shape, which is what rules out a match that
      straddles two adjacent pieces of a line. */
  predicate Token(t: string) {
    |t| >= 2 && t[0] == '<' && t[|t| - 1] == '>' &&
    forall i :: 0 < i < |t| - 1 ==> t[i] != '<' && t[i] != '>'
  }

  /** `s.Replace(p, r)`: every occurrence of `p`, scanning left to right and
      never overlapping, is replaced by `r`. (.NET refuses an empty `p`.) */
  function Replace(s: string, p: string, r: string): (res: string)
    requires p != []
    ensures !Contains(s, p) ==> res == s
    decreases |s|
  {
    if StartsWith(s, p) then r + Replace(s[|p|..], p, r)
    else if s == [] then []
    else [s[0]] + Replace(s[1..], p, r)
  }

  /** `s.Remove(start, count)`: the `count` characters from `start` are cut out. */
  function RemoveRange(s: string, start: nat, count: nat): (res: string)
    requires start + count <= |s|
    ensures |res| == |s| - count
    ensures res[..start] == s[..start] && res[start..] == s[start + count..]
  {
    s[..start] + s[start + count..]
  }

  /** `s.Split(sep)` with no options: the pieces between the non-overlapping
      occurrences of `sep`, found left to right; empty pieces are kept. */
  function Split(s: string, sep: string): (pieces: seq<string>)
    requires sep != []
    ensures |pieces| >= 1
    decreases |s|
  {
    if StartsWith(s, sep) then [[]] + Split(s[|sep|..], sep)
    else if s == [] then [[]]
    else
      var rest := Split(s[1..], sep);
      [[s[0]] + rest[0]] + rest[1..]
  }

  /** The pieces with `sep` between each two of them and none after the last. */
  function Join(pieces: seq<string>, sep: string): string
    decreases |pieces|
  {
    if pieces == [] then []
    else if |pieces| == 1 then pieces[0]
    else pieces[0] + sep + Join(pieces[1..], sep)
  }

  /** A line read back by StreamReader.ReadLine never holds a line break. */
  predicate BreakFree(s: string) {
    '\n' !in s && '\r' !in s
  }

  /** One call of StreamReader.ReadLine on the unread text `c`: the characters up
      to the first "\n", "\r" or "\r\n" (which is consumed), and the rest. */
  function ReadLine(c: string): (r: (string, string))
    ensures BreakFree(r.0)
    ensures c != [] ==> |r.1| < |c|
    ensures |r.0| <= |c|
  {
    if c == [] then ([], [])
    else if c[0] == '\n' then ([], c[1..])
    else if c[0] == '\r' then ([], if |c| > 1 && c[1] == '\n' then c[2..] else c[1..])
    else
      var (line, rest) := ReadLine(c[1..]);
      ([c[0]] + line, rest)
  }

  /** The lines a reader yields while `Peek() != -1`, that is, until the text is used up. */
  function ReadLines(c: string): (lines: seq<string>)
    ensures forall i :: 0 <= i < |lines| ==> BreakFree(lines[i])
    decreases |c|
  {
    if c == [] then []
    else
      var (line, rest) := ReadLine(c);
      [line] + ReadLines(rest)
  }

  /** The lines a later reader sees where StreamWriter.WriteLine(t) wrote `t`. */
  function WrittenLines(t: string): seq<string> {
    ReadLines(t + "\n")
  }

  // ---------------------------------------------------------------------------
  // Lemmas

  /** An occurrence found by `Contains`, as a position. */
  lemma {:induction false} ContainsWitness(s: string, p: string) returns (i: nat)
    requires Contains(s, p)
    ensures i + |p| <= |s| && s[i..i + |p|] == p
    decreases |s|
  {
    if StartsWith(s, p) {
      i := 0;
    } else {
      var j := ContainsWitness(s[1..], p);
      assert s[1..][j..j + |p|] == s[j + 1..j + 1 + |p|];
      i := j + 1;
    }
  }

  /** An occurrence in either half is an occurrence in the whole. */
  lemma {:induction false} ContainsInAppend(x: string, y: string, p: string)
    requires Contains(x, p) || Contains(y, p)
    ensures Contains(x + y, p)
    decreases |x|
  {
    if x == [] {
      assert x + y == y;
    } else if StartsWith(x, p) {
      assert (x + y)[..|p|] == x[..|p|];
    } else if Contains(x[1..], p) || !StartsWith(x + y, p) {
      assert (x + y)[1..] == x[1..] + y;
      ContainsInAppend(x[1..], y, p);
    }
  }

  /** A token found inside another token is that token. */
  lemma TokenInToken(p: string, q: string)
    requires Token(p) && Token(q) && Contains(q, p)
    ensures p == q
  {
    var i := ContainsWitness(q, p);
    assert q[i] == p[0] == '<';
    assert i == 0;
    assert q[|p| - 1] == p[|p| - 1] == '>';
    assert |p| == |q|;
    assert q == q[..|p|];
  }

  /** Where the left piece ends with '>' or the right one starts with '<', a
      token can start in the left piece only if it also ends there. */
  lemma StartsWithAppend(x: string, y: string, p: string)
    requires Token(p) && x != []
    requires x[|x| - 1] == '>' || y == [] || y[0] == '<'
    ensures StartsWith(x + y, p) <==> StartsWith(x, p)
  {
    if |x| >= |p| {
      assert (x + y)[..|p|] == x[..|p|];
    } else if |p| <= |x + y| {
      var w := (x + y)[..|p|];
      if x[|x| - 1] == '>' {
        assert w[|x| - 1] == '>' != p[|x| - 1];
      } else {
        assert w[|x|] == '<' != p[|x|];
      }
    }
  }

  /** Under the same condition, a token occurs in `x + y` exactly when it occurs
      in one of them. */
  lemma {:induction false} ContainsAppend(x: string, y: string, p: string)
    requires Token(p)
    requires x == [] || y == [] || x[|x| - 1] == '>' || y[0] == '<'
    ensures Contains(x + y, p) <==> Contains(x, p) || Contains(y, p)
    decreases |x|
  {
    if x == [] {
      assert x + y == y;
    } else {
      StartsWithAppend(x, y, p);
      assert (x + y)[1..] == x[1..] + y;
      ContainsAppend(x[1..], y, p);
    }
  }

  /** Text between a piece ending in '>' and one starting with '<' holds a token
      only if one of the three does. */
  lemma BetweenTagsLacks(o: string, t: string, c: string, p: string)
    requires Token(p) && o != [] && o[|o| - 1] == '>' && c != [] && c[0] == '<'
    requires !Contains(o, p) && !Contains(t, p) && !Contains(c, p)
    ensures !Contains(o + t + c, p)
  {
    ContainsAppend(t, c, p);
    ContainsAppend(o, t + c, p);
    assert o + t + c == o + (t + c);
  }

  /** Under the same condition, Replace of a token works piece by piece. */
  lemma {:induction false} ReplaceAppend(x: string, y: string, p: string, r: string)
    requires Token(p)
    requires x == [] || y == [] || x[|x| - 1] == '>' || y[0] == '<'
    ensures Replace(x + y, p, r) == Replace(x, p, r) + Replace(y, p, r)
    decreases |x|
  {
    if x == [] {
      assert x + y == y;
    } else {
      StartsWithAppend(x, y, p);
      if StartsWith(x, p) {
        ReplaceAppend(x[|p|..], y, p, r);
        ReplaceAppendAt(x, y, p, r);
      } else {
        ReplaceAppend(x[1..], y, p, r);
        ReplaceAppendSkip(x, y, p, r);
      }
    }
  }

  /** The step of ReplaceAppend where `x` starts with the pattern. */
  lemma ReplaceAppendAt(x: string, y: string, p: string, r: string)
    requires p != [] && StartsWith(x, p) && StartsWith(x + y, p)
    requires Replace(x[|p|..] + y, p, r) == Replace(x[|p|..], p, r) + Replace(y, p, r)
    ensures Replace(x + y, p, r) == Replace(x, p, r) + Replace(y, p, r)
  {
    AppendDrop(x, y, |p|);
    Assoc(r, Replace(x[|p|..], p, r), Replace(y, p, r));
  }

  /** The step of ReplaceAppend where `x` does not start with the pattern. */
  lemma ReplaceAppendSkip(x: string, y: string, p: string, r: string)
    requires p != [] && x != [] && !StartsWith(x, p) && !StartsWith(x + y, p)
    requires Replace(x[1..] + y, p, r) == Replace(x[1..], p, r) + Replace(y, p, r)
    ensures Replace(x + y, p, r) == Replace(x, p, r) + Replace(y, p, r)
  {
    AppendDrop(x, y, 1);
    Assoc([x[0]], Replace(x[1..], p, r), Replace(y, p, r));
  }

  lemma AppendDrop<T>(x: seq<T>, y: seq<T>, n: nat)
    requires n <= |x|
    ensures (x + y)[n..] == x[n..] + y
    ensures n < |x| ==> (x + y)[n] == x[n]
  {
  }

  lemma Assoc<T>(a: seq<T>, b: seq<T>, c: seq<T>)
    ensures a + (b + c) == (a + b) + c
  {
  }

  /** Replacing a single character `c` by text without `c` leaves no `c` behind. */
  lemma {:induction false} ReplaceRemovesChar(s: string, c: char, r: string)
    requires c !in r
    ensures c !in Replace(s, [c], r)
    decreases |s|
  {
    if s != [] {
      if StartsWith(s, [c]) {
        ReplaceRemovesChar(s[1..], c, r);
      } else {
        assert s[0] != c;
        ReplaceRemovesChar(s[1..], c, r);
      }
    }
  }

  /** Replace only brings in characters of `s` and of `r`. */
  lemma {:induction false} ReplaceKeepsCharOut(s: string, p: string, r: string, c: char)
    requires p != [] && c !in s && c !in r
    ensures c !in Replace(s, p, r)
    decreases |s|
  {
    if StartsWith(s, p) {
      assert forall ch :: ch in s[|p|..] ==> ch in s;
      ReplaceKeepsCharOut(s[|p|..], p, r, c);
    } else if s != [] {
      assert forall ch :: ch in s[1..] ==> ch in s;
      ReplaceKeepsCharOut(s[1..], p, r, c);
    }
  }

  /** A character in no piece and not in the separator is not in the join. */
  lemma {:induction false} JoinKeepsCharOut(pieces: seq<string>, sep: string, c: char)
    requires c !in sep && forall i :: 0 <= i < |pieces| ==> c !in pieces[i]
    ensures c !in Join(pieces, sep)
    decreases |pieces|
  {
    if |pieces| > 1 {
      assert forall i :: 0 <= i < |pieces[1..]| ==> pieces[1..][i] == pieces[i + 1];
      JoinKeepsCharOut(pieces[1..], sep, c);
    }
  }

  /** Text free of `c` can be pushed out in front of a Replace of `[c]`. */
  lemma {:induction false} ReplaceCharAppend(x: string, y: string, c: char, r: string)
    requires c !in x
    ensures Replace(x + y, [c], r) == x + Replace(y, [c], r)
    decreases |x|
  {
    if x == [] {
      assert x + y == y;
    } else {
      ReplaceCharAppend(x[1..], y, c, r);
      ReplaceCharSkip(x, y, c, r);
    }
  }

  /** The step of ReplaceCharAppend: the first character of `x` is not `c`. */
  lemma ReplaceCharSkip(x: string, y: string, c: char, r: string)
    requires x != [] && x[0] != c
    requires Replace(x[1..] + y, [c], r) == x[1..] + Replace(y, [c], r)
    ensures Replace(x + y, [c], r) == x + Replace(y, [c], r)
  {
    AppendDrop(x, y, 1);
    assert !StartsWith(x + y, [c]);
    Assoc([x[0]], x[1..], Replace(y, [c], r));
    HeadTail(x);
  }

  /** A token that occurs neither in `s` nor in `r`, where `r` is itself a
      token, does not occur after replacing a character by `r`. */
  lemma {:induction false} ReplaceCharKeepsAbsent(s: string, c: char, r: string, p: string)
    requires Token(p) && Token(r) && c != '<' && c != '>'
    requires !Contains(s, p) && !Contains(r, p)
    ensures !Contains(Replace(s, [c], r), p)
    decreases |s|
  {
    if c in s {
      var k := FirstIndex(s, c);
      var a, rest := s[..k], s[k + 1..];
      ReplaceAtFirst(s, c, r);
      SplitAtFirst(s, c, p);
      var tail := Replace(rest, [c], r);
      ReplaceCharKeepsAbsent(rest, c, r, p);
      ContainsAppend(r, tail, p);
      ContainsAppend(a, r + tail, p);
    } else {
      ReplaceCharAbsent(s, c, r);
    }
  }

  /** Replacing the first `c` of `s` by `r`, and the rest after it. */
  lemma ReplaceAtFirst(s: string, c: char, r: string)
    requires c in s
    ensures var k := FirstIndex(s, c);
      Replace(s, [c], r) == s[..k] + (r + Replace(s[k + 1..], [c], r))
  {
    var k := FirstIndex(s, c);
    var a, rest := s[..k], s[k + 1..];
    assert s == a + ([c] + rest);
    ReplaceCharAppend(a, [c] + rest, c, r);
    assert StartsWith([c] + rest, [c]);
    assert ([c] + rest)[1..] == rest;
  }

  /** The text before the first `c` and the text after it hold no token that `s` does not. */
  lemma SplitAtFirst(s: string, c: char, p: string)
    requires c in s && !Contains(s, p)
    ensures var k := FirstIndex(s, c); !Contains(s[..k], p) && !Contains(s[k + 1..], p)
  {
    var k := FirstIndex(s, c);
    var a, rest := s[..k], s[k + 1..];
    AroundIndex(s, k);
    if Contains(a, p) { ContainsInAppend(a, [c] + rest, p); }
    if Contains(rest, p) {
      ContainsInAppend([c], rest, p);
      ContainsInAppend(a, [c] + rest, p);
    }
  }

  /** The position of the first `c` in `s`. */
  function FirstIndex(s: string, c: char): (k: nat)
    requires c in s
    ensures k < |s| && s[k] == c && c !in s[..k]
  {
    if s[0] == c then 0 else FirstIndex(s[1..], c) + 1
  }

  /** Undoing the escape: replacing the token `r` back by `c` restores text in
      which `r` did not occur. */
  lemma {:induction false} UnescapeEscape(s: string, c: char, r: string)
    requires Token(r) && c != '<' && c != '>'
    requires !Contains(s, r)
    ensures Replace(Replace(s, [c], r), r, [c]) == s
    decreases |s|
  {
    if c !in s {
      ReplaceCharAbsent(s, c, r);
    } else {
      var k := FirstIndex(s, c);
      var a, rest := s[..k], s[k + 1..];
      ReplaceAtFirst(s, c, r);
      SplitAtFirst(s, c, r);
      var tail := Replace(rest, [c], r);
      UnescapeEscape(rest, c, r);
      UnescapeToken(a, tail, c, r);
      AroundIndex(s, k);
    }
  }

  /** A sequence is its element at `k` between what comes before and after. */
  lemma AroundIndex<T>(s: seq<T>, k: nat)
    requires k < |s|
    ensures s == s[..k] + ([s[k]] + s[k + 1..])
  {
  }

  lemma HeadTail<T>(s: seq<T>)
    requires s != []
    ensures s == [s[0]] + s[1..]
  {
  }

  /** One step of the un-escape: the token right after escape-free text turns back into `c`. */
  lemma UnescapeToken(a: string, tail: string, c: char, r: string)
    requires Token(r) && !Contains(a, r)
    ensures Replace(a + (r + tail), r, [c]) == a + ([c] + Replace(tail, r, [c]))
  {
    ReplaceAppend(a, r + tail, r, [c]);
    assert StartsWith(r + tail, r);
    assert (r + tail)[|r|..] == tail;
  }

  /** Text without `c` is left alone by a Replace of `[c]`. */
  lemma ReplaceCharAbsent(s: string, c: char, r: string)
    requires c !in s
    ensures Replace(s, [c], r) == s
  {
    ReplaceCharAppend(s, [], c, r);
    assert s + [] == s;
  }

  /** A piece free of `sep` splits off as the first piece. */
  lemma {:induction false} SplitFirst(a: string, rest: string, sep: string)
    requires Token(sep) && !Contains(a, sep)
    requires a == [] || a[|a| - 1] == '>'
    ensures Split(a + sep + rest, sep) == [a] + Split(rest, sep)
    decreases |a|
  {
    if a == [] {
      SplitAtSep(rest, sep);
      assert a + sep + rest == sep + rest;
    } else {
      SplitFirst(a[1..], rest, sep);
      SplitFirstStep(a, rest, sep);
    }
  }

  /** Text that starts with the separator has an empty first piece. */
  lemma SplitAtSep(rest: string, sep: string)
    requires Token(sep)
    ensures Split(sep + rest, sep) == [[]] + Split(rest, sep)
  {
    assert (sep + rest)[|sep|..] == rest;
    assert StartsWith(sep + rest, sep);
  }

  /** The step of SplitFirst: one more character in front of the first piece. */
  lemma SplitFirstStep(a: string, rest: string, sep: string)
    requires Token(sep) && a != [] && !Contains(a, sep) && a[|a| - 1] == '>'
    requires Split(a[1..] + sep + rest, sep) == [a[1..]] + Split(rest, sep)
    ensures Split(a + sep + rest, sep) == [a] + Split(rest, sep)
  {
    var s := a + sep + rest;
    assert !StartsWith(s, sep) by {
      StartsWithAppend(a, sep + rest, sep);
      assert s == a + (sep + rest);
      assert !StartsWith(a, sep);
    }
    AppendDrop(a, sep + rest, 1);
    Assoc(a, sep, rest);
    Assoc(a[1..], sep, rest);
    SplitUnfold(s, sep);
    assert s[0] == a[0] && [a[0]] + a[1..] == a;
  }

  /** Split of text that does not start with the separator: the first
      character joins the first piece of the rest. */
  lemma SplitUnfold(s: string, sep: string)
    requires sep != [] && s != [] && !StartsWith(s, sep)
    ensures Split(s, sep) == [[s[0]] + Split(s[1..], sep)[0]] + Split(s[1..], sep)[1..]
  {
  }

  /** Pieces that start with '<', end with '>' and hold no separator come back
      out of Split unchanged. */
  lemma {:induction false} SplitJoin(pieces: seq<string>, sep: string)
    requires Token(sep) && |pieces| >= 1
    requires forall p :: p in pieces ==> !Contains(p, sep) && (p == [] || p[|p| - 1] == '>')
    ensures Split(Join(pieces, sep), sep) == pieces
    decreases |pieces|
  {
    if |pieces| == 1 {
      NoSepSplit(pieces[0], sep);
    } else {
      var rest := pieces[1..];
      assert Join(pieces, sep) == pieces[0] + sep + Join(rest, sep);
      SplitFirst(pieces[0], Join(rest, sep), sep);
      assert pieces[0] in pieces;
      assert forall p :: p in rest ==> p in pieces;
      SplitJoin(rest, sep);
      HeadTail(pieces);
    }
  }

  /** Text without the separator is one piece. */
  lemma {:induction false} NoSepSplit(s: string, sep: string)
    requires sep != [] && !Contains(s, sep)
    ensures Split(s, sep) == [s]
    decreases |s|
  {
    if s != [] {
      assert !StartsWith(s, sep);
      NoSepSplit(s[1..], sep);
      assert [s[0]] + s[1..] == s;
    }
  }

  /** `Join(pieces) + sep` grows by one piece at a time. */
  lemma JoinSnoc(pieces: seq<string>, x: string, sep: string)
    requires pieces != []
    ensures Join(pieces + [x], sep) == Join(pieces, sep) + sep + x
    decreases |pieces|
  {
    if |pieces| == 1 {
      assert (pieces + [x])[1..] == [x];
    } else {
      assert (pieces + [x])[1..] == pieces[1..] + [x];
      JoinSnoc(pieces[1..], x, sep);
    }
  }

  /** A line without line breaks is read back as itself and nothing more. */
  lemma {:induction false} WrittenBreakFree(t: string)
    requires BreakFree(t)
    ensures WrittenLines(t) == [t]
  {
    ReadLineBreakFree(t);
    assert ReadLines([]) == [];
  }

  lemma {:induction false} ReadLineBreakFree(t: string)
    requires BreakFree(t)
    ensures ReadLine(t + "\n") == (t, [])
    decreases |t|
  {
    if t != [] {
      assert (t + "\n")[0] == t[0];
      assert (t + "\n")[1..] == t[1..] + "\n";
      assert t[0] in t;
      assert BreakFree(t[1..]) by {
        assert forall ch :: ch in t[1..] ==> ch in t;
      }
      ReadLineBreakFree(t[1..]);
      assert [t[0]] + t[1..] == t;
    }
  }
}
