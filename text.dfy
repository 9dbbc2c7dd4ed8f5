/** Character-level helpers `md2mp3.py` relies on: Python's notion of
    whitespace, `str.strip()`, `str.join` and list concatenation. */
module Text {

  /** The characters for which Python's `str.isspace()` holds, i.e. the ones
      `str.strip()` with no argument removes (this includes the ideographic
      space U+3000 that Chinese text often carries). */
  predicate IsSpace(c: char) {
    c == ' ' || ('\t' <= c <= '\r') || ('\U{1C}' <= c <= '\U{1F}')
    || c == '\U{85}' || c == '\U{A0}' || c == '\U{1680}'
    || ('\U{2000}' <= c <= '\U{200A}') || c == '\U{2028}' || c == '\U{2029}'
    || c == '\U{202F}' || c == '\U{205F}' || c == '\U{3000}'
  }

  ghost predicate AllSpace(s: string) {
    forall i :: 0 <= i < |s| ==> IsSpace(s[i])
  }

  /** A string with no whitespace at either end. */
  predicate IsStripped(s: string) {
    s == [] || (!IsSpace(s[0]) && !IsSpace(s[|s| - 1]))
  }

  /** `s.lstrip()`: the longest suffix of `s` not starting with whitespace. */
  function TrimStart(s: string): (r: string)
    ensures |r| <= |s| && r == s[|s| - |r|..]
    ensures AllSpace(s[..|s| - |r|])
    ensures r == [] || !IsSpace(r[0])
  {
    if s != [] && IsSpace(s[0]) then
      var r := TrimStart(s[1..]);
      TrimStartStep(s, r);
      r
    else s
  }

  /** Dropping one leading space keeps the suffix and the all-space prefix. */
  lemma TrimStartStep(s: string, r: string)
    requires s != [] && IsSpace(s[0])
    requires |r| <= |s| - 1 && r == s[1..][|s| - 1 - |r|..]
    requires AllSpace(s[1..][..|s| - 1 - |r|])
    ensures r == s[|s| - |r|..]
    ensures AllSpace(s[..|s| - |r|])
  {
    var k := |s| - |r|;
    forall i | 0 <= i < k ensures IsSpace(s[..k][i]) {
      if i > 0 {
        assert s[..k][i] == s[1..][..k - 1][i - 1];
      }
    }
  }

  /** `s.rstrip()`: the longest prefix of `s` not ending with whitespace. */
  function TrimEnd(s: string): (r: string)
    ensures |r| <= |s| && r == s[..|r|]
    ensures AllSpace(s[|r|..])
    ensures r == [] || !IsSpace(r[|r| - 1])
  {
    if s != [] && IsSpace(s[|s| - 1]) then
      var r := TrimEnd(s[..|s| - 1]);
      assert s[|r|..] == s[..|s| - 1][|r|..] + [s[|s| - 1]];
      r
    else s
  }

  /** `s.strip()`: `s` without its leading and trailing whitespace. */
  function Strip(s: string): (r: string)
    ensures IsStripped(r) && |r| <= |s|
  {
    TrimEnd(TrimStart(s))
  }

  /** `r` sits at offset `i` of `s` with only whitespace around it. */
  ghost predicate Framed(s: string, r: string, i: int) {
    0 <= i <= |s| - |r| && r == s[i..i + |r|]
    && AllSpace(s[..i]) && AllSpace(s[i + |r|..])
  }

  /** `Strip(s)` is a slice of `s` with only whitespace on either side of it. */
  lemma StripIsInnerSlice(s: string)
    ensures exists i :: Framed(s, Strip(s), i)
  {
    var t := TrimStart(s);
    var r := TrimEnd(t);
    var i := |s| - |t|;
    assert t == s[i..] && AllSpace(s[..i]);
    assert r == t[..|r|] && AllSpace(t[|r|..]);
    SliceOfSuffix(s, i, |r|);
    assert r == s[i..i + |r|] && t[|r|..] == s[i + |r|..];
    assert r == Strip(s);
    assert Framed(s, r, i);
  }

  lemma SliceOfSuffix(s: string, i: nat, n: nat)
    requires i + n <= |s|
    ensures s[i..][..n] == s[i..i + n] && s[i..][n..] == s[i + n..]
  {
  }

  /** The text with every whitespace character removed: what "equal up to
      whitespace" compares. */
  function DropSpaces(s: string): (r: string)
    ensures |r| <= |s|
  {
    if s == [] then []
    else if IsSpace(s[0]) then DropSpaces(s[1..])
    else [s[0]] + DropSpaces(s[1..])
  }

  /** `''.join(pieces)` */
  function Concat(pieces: seq<string>): string {
    if pieces == [] then [] else pieces[0] + Concat(pieces[1..])
  }

  /** `sep.join(pieces)`: the pieces with `sep` between neighbours, none at the end. */
  function Join(pieces: seq<string>, sep: string): string {
    if pieces == [] then []
    else if |pieces| == 1 then pieces[0]
    else Join(pieces[..|pieces| - 1], sep) + sep + pieces[|pieces| - 1]
  }

  /** A join of non-empty pieces starts with the first piece and ends with the last. */
  lemma {:induction false} JoinEnds(pieces: seq<string>, sep: string)
    requires pieces != []
    requires forall k :: 0 <= k < |pieces| ==> pieces[k] != []
    ensures var j := Join(pieces, sep);
            j != [] && j[0] == pieces[0][0]
            && j[|j| - 1] == pieces[|pieces| - 1][|pieces[|pieces| - 1]| - 1]
  {
    if |pieces| > 1 {
      JoinEnds(pieces[..|pieces| - 1], sep);
    }
  }

  lemma {:induction false} DropSpacesAppend(a: string, b: string)
    ensures DropSpaces(a + b) == DropSpaces(a) + DropSpaces(b)
  {
    if a == [] {
      assert a + b == b;
    } else {
      assert (a + b)[0] == a[0];
      assert (a + b)[1..] == a[1..] + b;
      DropSpacesAppend(a[1..], b);
    }
  }

  lemma {:induction false} DropSpacesAllSpace(s: string)
    requires AllSpace(s)
    ensures DropSpaces(s) == []
  {
    if s != [] {
      DropSpacesAllSpace(s[1..]);
    }
  }

  /** Blank text has nothing left after dropping whitespace, and conversely. */
  lemma {:induction false} DropSpacesEmptyIff(s: string)
    ensures DropSpaces(s) == [] <==> AllSpace(s)
  {
    if s != [] {
      DropSpacesEmptyIff(s[1..]);
      assert AllSpace(s) <==> IsSpace(s[0]) && AllSpace(s[1..]);
    }
  }

  lemma {:induction false} DropSpacesTrimStart(s: string)
    ensures DropSpaces(TrimStart(s)) == DropSpaces(s)
  {
    if s != [] && IsSpace(s[0]) {
      DropSpacesTrimStart(s[1..]);
    }
  }

  lemma {:induction false} DropSpacesTrimEnd(s: string)
    ensures DropSpaces(TrimEnd(s)) == DropSpaces(s)
  {
    if s != [] && IsSpace(s[|s| - 1]) {
      var init := s[..|s| - 1];
      DropSpacesTrimEnd(init);
      assert s == init + [s[|s| - 1]];
      DropSpacesAppend(init, [s[|s| - 1]]);
    }
  }

  /** Stripping only removes whitespace. */
  lemma DropSpacesStrip(s: string)
    ensures DropSpaces(Strip(s)) == DropSpaces(s)
  {
    DropSpacesTrimStart(s);
    DropSpacesTrimEnd(TrimStart(s));
  }

  /** `s.strip()` is empty exactly when `s` is blank. */
  lemma StripEmptyIff(s: string)
    ensures Strip(s) == [] <==> AllSpace(s)
  {
    DropSpacesStrip(s);
    DropSpacesEmptyIff(s);
    DropSpacesEmptyIff(Strip(s));
  }

  /** Stripping a string that has no outer whitespace leaves it unchanged. */
  /** One whitespace character before a stripped text is all `strip()`
      removes. */
  lemma StripAfterSpace(c: char, s: string)
    requires IsSpace(c) && s != [] && IsStripped(s)
    ensures Strip([c] + s) == s
  {
    assert ([c] + s)[1..] == s;
    StrippedIsFixed(s);
  }

  lemma StrippedIsFixed(s: string)
    requires IsStripped(s)
    ensures Strip(s) == s
  {
  }

  /** `Strip` is idempotent. */
  lemma StripIdempotent(s: string)
    ensures Strip(Strip(s)) == Strip(s)
  {
    StrippedIsFixed(Strip(s));
  }

  /** Concatenation distributes over appending lists of pieces. */
  lemma {:induction false} ConcatAppend(a: seq<string>, b: seq<string>)
    ensures Concat(a + b) == Concat(a) + Concat(b)
  {
    if a == [] {
      assert a + b == b;
    } else {
      assert (a + b)[0] == a[0];
      assert (a + b)[1..] == a[1..] + b;
      ConcatAppend(a[1..], b);
    }
  }

  lemma ConcatOne(x: string)
    ensures Concat([x]) == x
  {
    assert [x][1..] == [];
  }

  lemma AppendAssoc<T>(a: seq<T>, b: seq<T>, c: seq<T>)
    ensures a + (b + c) == a + b + c
  {
  }

  lemma IndexAppend<T>(a: seq<T>, b: seq<T>, k: nat)
    requires k < |a| + |b|
    ensures (a + b)[k] == if k < |a| then a[k] else b[k - |a|]
  {
  }

  lemma IndexSuffix<T>(s: seq<T>, b: nat, i: nat)
    requires b <= i < |s|
    ensures s[b..][i - b] == s[i]
  {
  }

  lemma AppendEmpty<T>(a: seq<T>, b: seq<T>)
    ensures a + [] + b == a + b && [] + a + b == a + b
  {
  }

  /** `s.split('\n')`: the pieces between line breaks; always at least one. */
  function SplitLines(s: string): (lines: seq<string>)
    ensures |lines| >= 1
  {
    if s == [] then [[]]
    else if s[0] == '\n' then [[]] + SplitLines(s[1..])
    else
      var rest := SplitLines(s[1..]);
      [[s[0]] + rest[0]] + rest[1..]
  }

  /** A piece with no line break splits to itself. */
  lemma {:induction false} SplitLinesSingle(s: string)
    requires '\n' !in s
    ensures SplitLines(s) == [s]
  {
    if s != [] {
      assert s[0] != '\n';
      assert '\n' !in s[1..] by {
        forall i | 0 <= i < |s[1..]| ensures s[1..][i] != '\n' {
          assert s[1..][i] == s[i + 1];
        }
      }
      SplitLinesSingle(s[1..]);
      assert [s[0]] + s[1..] == s;
    }
  }

  /** Splitting at a line break splits the two sides separately. */
  lemma {:induction false} SplitLinesAppend(a: string, b: string)
    ensures SplitLines(a + "\n" + b) == SplitLines(a) + SplitLines(b)
  {
    if a == [] {
      assert a + "\n" + b == "\n" + b;
      assert ("\n" + b)[1..] == b;
    } else {
      var s := a + "\n" + b;
      assert s[0] == a[0] && s[1..] == a[1..] + "\n" + b;
      SplitLinesAppend(a[1..], b);
      var ra, rb := SplitLines(a[1..]), SplitLines(b);
      if a[0] != '\n' {
        assert (ra + rb)[0] == ra[0];
        assert (ra + rb)[1..] == ra[1..] + rb;
        AppendAssoc([[a[0]] + ra[0]], ra[1..], rb);
      } else {
        AppendAssoc([[]], ra, rb);
      }
    }
  }

  /** Joining lines that hold no line break with `'\n'` and splitting the
      result again gives the lines back. */
  lemma {:induction false} SplitJoinedLines(lines: seq<string>)
    requires lines != []
    requires forall k :: 0 <= k < |lines| ==> '\n' !in lines[k]
    ensures SplitLines(Join(lines, "\n")) == lines
  {
    var n := |lines|;
    SplitLinesSingle(lines[n - 1]);
    if n > 1 {
      SplitJoinedLines(lines[..n - 1]);
      SplitLinesAppend(Join(lines[..n - 1], "\n"), lines[n - 1]);
      assert lines[..n - 1] + [lines[n - 1]] == lines;
    }
  }
  /** `s.split('\n')` has one more piece than `s` has line breaks. */
  lemma {:induction false} SplitLinesCount(s: string)
    ensures |SplitLines(s)| == multiset(s)['\n'] + 1
  {
    if s != [] {
      SplitLinesCount(s[1..]);
      assert s == [s[0]] + s[1..];
    }
  }

  /** Gluing two strings with a line break adds exactly that one break. */
  lemma BreaksAcrossGlue(a: string, b: string)
    ensures multiset(a + "\n" + b)['\n'] == multiset(a)['\n'] + 1 + multiset(b)['\n']
  {
    assert a + "\n" + b == a + ("\n" + b);
  }

  /** A `'\n'`-join holds the separators between the pieces plus the line
      breaks inside any one piece. */
  lemma {:induction false} JoinBreaks(pieces: seq<string>, k: nat)
    requires k < |pieces|
    ensures multiset(Join(pieces, "\n"))['\n'] >= |pieces| - 1 + multiset(pieces[k])['\n']
  {
    var n := |pieces|;
    if n > 1 {
      var prefix := pieces[..n - 1];
      var j := Join(prefix, "\n");
      assert Join(pieces, "\n") == j + "\n" + pieces[n - 1];
      BreaksAcrossGlue(j, pieces[n - 1]);
      if k < n - 1 {
        JoinBreaks(prefix, k);
        assert prefix[k] == pieces[k];
      } else {
        JoinBreaks(prefix, 0);
        assert multiset(j)['\n'] >= n - 2;
      }
    }
  }
}
