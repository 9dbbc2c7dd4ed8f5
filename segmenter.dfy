/** The sentence segmenter `split_into_sentences` (md2mp3.py:67-87).

    `split_into_sentences` runs the pattern `([^T]+[T]+)`, where T is the
    terminator set below, through `re.findall` and `re.sub`. Scanning left
    to right, a position holding a terminator never starts a match; from
    any other position the greedy body run either reaches a terminator (and the match
    takes the whole terminator run after it) or reaches the end of the text,
    after which no later position can match either. `FindAll` and `Removed`
    are that scan written out. */
module Segmenter {
  import opened Text

  /** `。！？.!?` and the line break. */
  predicate IsTerminator(c: char) {
    c == '。' || c == '！' || c == '？' || c == '.' || c == '!' || c == '?' || c == '\n'
  }

  ghost predicate NoTerminator(s: string) {
    forall i :: 0 <= i < |s| ==> !IsTerminator(s[i])
  }

  ghost predicate AllTerminators(s: string) {
    forall i :: 0 <= i < |s| ==> IsTerminator(s[i])
  }

  /** Length of the longest prefix of `s` whose characters are terminators
      (`term`) or non-terminators (`!term`). */
  function RunLength(s: string, term: bool): (n: nat)
    ensures n <= |s|
    ensures forall i :: 0 <= i < n ==> IsTerminator(s[i]) == term
    ensures n < |s| ==> IsTerminator(s[n]) != term
  {
    if s != [] && IsTerminator(s[0]) == term then 1 + RunLength(s[1..], term) else 0
  }

  /** One match of the pattern: a non-empty run of non-terminators followed by
      a non-empty run of terminators (it starts with a non-terminator, ends
      with a terminator, and a terminator is only ever followed by another). */
  ghost predicate IsMatch(m: string) {
    |m| >= 2 && !IsTerminator(m[0]) && IsTerminator(m[|m| - 1])
    && forall i :: 0 < i < |m| && IsTerminator(m[i - 1]) ==> IsTerminator(m[i])
  }

  /** The terminators the text starts with; no match can begin among them. */
  function Leading(s: string): (lead: string)
    ensures AllTerminators(lead)
  {
    s[..RunLength(s, true)]
  }

  /** Where the match that starts at the front of `s` ends: after the body
      run and the whole terminator run that follows it. */
  function MatchEnd(s: string): (e: nat)
    requires RunLength(s, false) < |s|
    ensures RunLength(s, false) < e <= |s|
  {
    RunLength(s, false) + RunLength(s[RunLength(s, false)..], true)
  }

  /** `re.findall(pattern, s)`: the matches, left to right. */
  function FindAll(s: string): (ms: seq<string>)
    decreases |s|
  {
    if s == [] then []
    else if IsTerminator(s[0]) then FindAll(s[1..])
    else if RunLength(s, false) == |s| then []
    else [s[..MatchEnd(s)]] + FindAll(s[MatchEnd(s)..])
  }

  /** `s[..MatchEnd(s)]` is a match, and what follows it does not start
      with a terminator. */
  lemma MatchAt(s: string)
    requires s != [] && !IsTerminator(s[0]) && RunLength(s, false) < |s|
    ensures IsMatch(s[..MatchEnd(s)]) && Leading(s[MatchEnd(s)..]) == []
  {
    var e := MatchEnd(s);
    TerminatorRun(s);
    var m := s[..e];
    assert IsMatch(m) by {
      forall i | 0 < i < |m| && IsTerminator(m[i - 1])
        ensures IsTerminator(m[i])
      {
        assert m[i] == s[i] && m[i - 1] == s[i - 1];
      }
      assert m[0] == s[0] && m[|m| - 1] == s[e - 1];
    }
    var after := s[e..];
    if e < |s| {
      assert after[0] == s[e];
      assert RunLength(after, true) == 0;
    } else {
      assert after == [];
    }
  }

  /** After the body run of `s` come only terminators up to the match end,
      and the character there, if any, is not one. */
  lemma TerminatorRun(s: string)
    requires RunLength(s, false) < |s|
    ensures forall i :: RunLength(s, false) <= i < MatchEnd(s) ==> IsTerminator(s[i])
    ensures MatchEnd(s) < |s| ==> !IsTerminator(s[MatchEnd(s)])
  {
    var b := RunLength(s, false);
    forall i | b <= i < MatchEnd(s) ensures IsTerminator(s[i]) {
      InsideRun(s[b..], i - b);
      IndexSuffix(s, b, i);
    }
    if MatchEnd(s) < |s| {
      AfterRun(s[b..]);
      IndexSuffix(s, b, MatchEnd(s));
    }
  }

  lemma InsideRun(t: string, j: nat)
    requires j < RunLength(t, true)
    ensures IsTerminator(t[j])
  {
  }

  lemma AfterRun(t: string)
    requires RunLength(t, true) < |t|
    ensures !IsTerminator(t[RunLength(t, true)])
  {
  }

  /** `re.sub(pattern, '', s)`: the text with every match removed. */
  function Removed(s: string): string
    decreases |s|
  {
    if s == [] then []
    else if IsTerminator(s[0]) then [s[0]] + Removed(s[1..])
    else if RunLength(s, false) == |s| then s
    else Removed(s[MatchEnd(s)..])
  }

  /** The trailing fragment: the text after the last match, in which the
      scan found nothing more. */
  function Fragment(s: string): (frag: string)
    ensures NoTerminator(frag)
    decreases |s|
  {
    if s == [] then []
    else if IsTerminator(s[0]) then Fragment(s[1..])
    else if RunLength(s, false) == |s| then s
    else Fragment(s[MatchEnd(s)..])
  }

  /** What cleaning keeps of one candidate: its `strip()`, when that is
      not empty. */
  function Cleaned(c: string): seq<string> {
    if Strip(c) != [] then [Strip(c)] else []
  }

  /** `[c.strip() for c in candidates if c.strip()]` */
  function Tidy(candidates: seq<string>): (r: seq<string>)
    ensures |r| <= |candidates|
  {
    if candidates == [] then []
    else Cleaned(candidates[0]) + Tidy(candidates[1..])
  }

  /** `split_into_sentences(text)` */
  function SplitIntoSentences(text: string): (sentences: seq<string>)
  {
    var found := FindAll(text);
    var remaining := Strip(Removed(text));
    Tidy(if remaining != [] then found + [remaining] else found)
  }

  // ---------------------------------------------------------------------
  // Lemmas

  lemma TakeDrop(s: string, e: nat)
    requires e <= |s|
    ensures s[..e] + s[e..] == s
  {
  }

  /** A leading terminator is skipped by the scan. */
  lemma TerminatorStep(s: string)
    requires s != [] && IsTerminator(s[0])
    ensures Leading(s) == [s[0]] + Leading(s[1..])
    ensures FindAll(s) == FindAll(s[1..])
    ensures Fragment(s) == Fragment(s[1..])
  {
    LeadingSkip(s);
    FindAllSkip(s);
    FragmentSkip(s);
  }

  lemma LeadingSkip(s: string)
    requires s != [] && IsTerminator(s[0])
    ensures Leading(s) == [s[0]] + Leading(s[1..])
  {
  }

  lemma FindAllSkip(s: string)
    requires s != [] && IsTerminator(s[0])
    ensures FindAll(s) == FindAll(s[1..])
  {
  }

  lemma FragmentSkip(s: string)
    requires s != [] && IsTerminator(s[0])
    ensures Fragment(s) == Fragment(s[1..])
  {
  }

  /** From a position that holds no terminator and where a match starts, the
      scan takes that match and resumes where it ends. */
  lemma MatchStep(s: string)
    requires s != [] && !IsTerminator(s[0]) && RunLength(s, false) < |s|
    ensures Leading(s) == [] && Leading(s[MatchEnd(s)..]) == []
    ensures FindAll(s) == [s[..MatchEnd(s)]] + FindAll(s[MatchEnd(s)..])
    ensures Concat(FindAll(s)) == s[..MatchEnd(s)] + Concat(FindAll(s[MatchEnd(s)..]))
    ensures Fragment(s) == Fragment(s[MatchEnd(s)..])
  {
    MatchAt(s);
    var rest := FindAll(s[MatchEnd(s)..]);
    assert ([s[..MatchEnd(s)]] + rest)[1..] == rest;
  }

  /** The text is exactly: leading terminators, then the matches in order,
      then the trailing fragment. */
  lemma {:induction false} Decomposition(s: string)
    ensures s == Leading(s) + Concat(FindAll(s)) + Fragment(s)
    decreases |s|
  {
    if s == [] {
    } else if IsTerminator(s[0]) {
      Decomposition(s[1..]);
      DecomposeAfterTerminator(s);
    } else if RunLength(s, false) == |s| {
      assert Leading(s) == [] && FindAll(s) == [] && Fragment(s) == s;
    } else {
      Decomposition(s[MatchEnd(s)..]);
      DecomposeAfterMatch(s);
    }
  }

  lemma DecomposeAfterTerminator(s: string)
    requires s != [] && IsTerminator(s[0])
    requires s[1..] == Leading(s[1..]) + Concat(FindAll(s[1..])) + Fragment(s[1..])
    ensures s == Leading(s) + Concat(FindAll(s)) + Fragment(s)
  {
    TerminatorStep(s);
    Regroup([s[0]], Leading(s[1..]), Concat(FindAll(s[1..])), Fragment(s[1..]), s[1..]);
    TakeDrop(s, 1);
    assert s[..1] == [s[0]];
  }

  lemma DecomposeAfterMatch(s: string)
    requires s != [] && !IsTerminator(s[0]) && RunLength(s, false) < |s|
    requires var s1 := s[MatchEnd(s)..];
             s1 == Leading(s1) + Concat(FindAll(s1)) + Fragment(s1)
    ensures s == Leading(s) + Concat(FindAll(s)) + Fragment(s)
  {
    var e := MatchEnd(s);
    MatchStep(s);
    Regroup(s[..e], [], Concat(FindAll(s[e..])), Fragment(s[e..]), s[e..]);
    TakeDrop(s, e);
  }

  /** Sequence bookkeeping shared by the two cases above. */
  lemma Regroup(x: string, l: string, c: string, f: string, rest: string)
    requires rest == l + c + f
    ensures x + rest == (x + l) + c + f
    ensures l == [] ==> [] + (x + c) + f == x + rest
  {
  }

  /** What `re.sub` leaves: the leading terminators glued to the trailing
      fragment. */
  lemma {:induction false} RemovedIsLeadingAndFragment(s: string)
    ensures Removed(s) == Leading(s) + Fragment(s)
    decreases |s|
  {
    if s == [] {
    } else if IsTerminator(s[0]) {
      TerminatorStep(s);
      RemovedIsLeadingAndFragment(s[1..]);
      assert Removed(s) == [s[0]] + Removed(s[1..]);
    } else if RunLength(s, false) == |s| {
      assert Leading(s) == [] && Removed(s) == s == Fragment(s);
    } else {
      MatchStep(s);
      RemovedIsLeadingAndFragment(s[MatchEnd(s)..]);
      assert Removed(s) == Removed(s[MatchEnd(s)..]);
    }
  }

  // ---------------------------------------------------------------------
  // What the segmenter promises

  /** Every element `re.findall` returns is a match of the pattern. */
  lemma {:induction false} FindAllMatches(s: string)
    ensures forall k :: 0 <= k < |FindAll(s)| ==> IsMatch(FindAll(s)[k])
    decreases |s|
  {
    if s == [] {
    } else if IsTerminator(s[0]) {
      TerminatorStep(s);
      FindAllMatches(s[1..]);
    } else if RunLength(s, false) < |s| {
      MatchStep(s);
      MatchAt(s);
      FindAllMatches(s[MatchEnd(s)..]);
    }
  }

  /** Every string in the list is non-empty and has no whitespace at
      either end. */
  ghost predicate AllClean(xs: seq<string>) {
    forall k :: 0 <= k < |xs| ==> xs[k] != [] && IsStripped(xs[k])
  }

  lemma AllCleanAppend(a: seq<string>, b: seq<string>)
    requires AllClean(a) && AllClean(b)
    ensures AllClean(a + b)
  {
    forall k | 0 <= k < |a + b| ensures (a + b)[k] != [] && IsStripped((a + b)[k]) {
      IndexAppend(a, b, k);
    }
  }

  /** Cleaning keeps only non-empty, stripped candidates. */
  lemma {:induction false} TidyClean(cs: seq<string>)
    ensures AllClean(Tidy(cs))
  {
    if cs != [] {
      TidyClean(cs[1..]);
      CleanedIsClean(cs[0]);
      AllCleanAppend(Cleaned(cs[0]), Tidy(cs[1..]));
    }
  }

  lemma CleanedIsClean(c: string)
    ensures AllClean(Cleaned(c))
  {
    var r := Strip(c);
    if r != [] {
      SingletonClean(r);
    }
  }

  lemma SingletonClean(x: string)
    requires x != [] && IsStripped(x)
    ensures AllClean([x])
  {
  }

  /** Every sentence is non-empty and equal to its own `strip()`. */
  lemma SentencesAreStripped(text: string)
    ensures forall k :: 0 <= k < |SplitIntoSentences(text)| ==>
              SplitIntoSentences(text)[k] != []
              && Strip(SplitIntoSentences(text)[k]) == SplitIntoSentences(text)[k]
  {
    var found := FindAll(text);
    var rest := Strip(Removed(text));
    TidyClean(if rest != [] then found + [rest] else found);
    var ss := SplitIntoSentences(text);
    forall k | 0 <= k < |ss| ensures Strip(ss[k]) == ss[k] {
      StrippedIsFixed(ss[k]);
    }
  }

  /** Cleaning two lists of candidates one after the other is cleaning their
      concatenation: the order of the candidates is kept. */
  lemma {:induction false} TidyAppend(a: seq<string>, b: seq<string>)
    ensures Tidy(a + b) == Tidy(a) + Tidy(b)
  {
    if a == [] {
      assert a + b == b;
    } else {
      assert (a + b)[0] == a[0];
      assert (a + b)[1..] == a[1..] + b;
      TidyAppend(a[1..], b);
      AppendAssoc(Cleaned(a[0]), Tidy(a[1..]), Tidy(b));
    }
  }

  /** The sentences are the cleaned matches, in text order, followed by the
      cleaned remainder when it is not blank. */
  lemma SentenceOrder(text: string)
    ensures var rest := Strip(Removed(text));
            SplitIntoSentences(text)
            == Tidy(FindAll(text)) + (if rest != [] then [rest] else [])
  {
    var rest := Strip(Removed(text));
    if rest != [] {
      TidyAppend(FindAll(text), [rest]);
      StripIdempotent(Removed(text));
      TidyOne(rest);
    }
  }

  lemma TidyOne(c: string)
    ensures Tidy([c]) == Cleaned(c)
  {
    assert [c][1..] == [];
  }

  /** Cleaning loses only whitespace. */
  lemma {:induction false} DropSpacesTidy(cs: seq<string>)
    ensures DropSpaces(Concat(Tidy(cs))) == DropSpaces(Concat(cs))
  {
    if cs != [] {
      var c := Strip(cs[0]);
      var head := Cleaned(cs[0]);
      var tail := Tidy(cs[1..]);
      assert Tidy(cs) == head + tail;
      DropSpacesTidy(cs[1..]);
      ConcatAppend(head, tail);
      assert Concat(head) == c by {
        if c != [] { ConcatOne(c); }
      }
      DropSpacesAppend(c, Concat(tail));
      assert Concat(cs) == cs[0] + Concat(cs[1..]);
      DropSpacesAppend(cs[0], Concat(cs[1..]));
      DropSpacesStrip(cs[0]);
    }
  }

  /** The non-whitespace characters of the sentences are those of the
      matches, then of the leading terminators, then of the trailing fragment. */
  lemma SentenceContent(text: string)
    ensures DropSpaces(Concat(SplitIntoSentences(text)))
            == DropSpaces(Concat(FindAll(text))) + DropSpaces(Leading(text))
               + DropSpaces(Fragment(text))
  {
    var found := FindAll(text);
    var removed := Removed(text);
    var rest := Strip(removed);
    var candidates := if rest != [] then found + [rest] else found;
    assert SplitIntoSentences(text) == Tidy(candidates);
    DropSpacesTidy(candidates);
    RemovedIsLeadingAndFragment(text);
    DropSpacesAppend(Leading(text), Fragment(text));
    DropSpacesStrip(removed);
    CandidatesContent(found, rest, DropSpaces(Leading(text)), DropSpaces(Fragment(text)));
  }

  /** The characters of the matches followed by those of the leftover. */
  lemma CandidatesContent(found: seq<string>, rest: string, dl: string, df: string)
    requires DropSpaces(rest) == dl + df
    ensures DropSpaces(Concat(if rest != [] then found + [rest] else found))
            == DropSpaces(Concat(found)) + dl + df
  {
    var dc := DropSpaces(Concat(found));
    if rest != [] {
      ConcatAppend(found, [rest]);
      ConcatOne(rest);
      DropSpacesAppend(Concat(found), rest);
      AppendAssoc(dc, dl, df);
    } else {
      assert dl + df == [];
      assert dc + dl + df == dc;
    }
  }

  /** The sentences hold every non-whitespace character of the text, each as
      often as the text does. */
  lemma SentencesCoverText(text: string)
    ensures multiset(DropSpaces(Concat(SplitIntoSentences(text))))
            == multiset(DropSpaces(text))
  {
    var l, c, f := Leading(text), Concat(FindAll(text)), Fragment(text);
    SentenceContent(text);
    Decomposition(text);
    DropSpacesAppend(l + c, f);
    DropSpacesAppend(l, c);
    var dl, dc, df := DropSpaces(l), DropSpaces(c), DropSpaces(f);
    calc {
      multiset(dc + dl + df);
      multiset(dc) + multiset(dl) + multiset(df);
      multiset(dl) + multiset(dc) + multiset(df);
      multiset(dl + dc + df);
    }
  }

  /** When the text does not begin with a terminator, concatenating the
      sentences gives back the text up to whitespace, in order. */
  lemma SentencesRebuildText(text: string)
    requires text == [] || !IsTerminator(text[0])
    ensures DropSpaces(Concat(SplitIntoSentences(text))) == DropSpaces(text)
  {
    var c, f := Concat(FindAll(text)), Fragment(text);
    var dc, df := DropSpaces(c), DropSpaces(f);
    assert Leading(text) == [];
    assert DropSpaces(Leading(text)) == [];
    SentenceContent(text);
    AppendEmpty(dc, df);
    Decomposition(text);
    AppendEmpty(c, f);
    DropSpacesAppend(c, f);
  }

  /** Text holding no terminator is one sentence, its stripped self, or none
      when it is blank. */
  lemma NoTerminatorText(text: string)
    requires NoTerminator(text)
    ensures SplitIntoSentences(text)
            == if AllSpace(text) then [] else [Strip(text)]
  {
    assert RunLength(text, false) == |text|;
    assert FindAll(text) == [] && Removed(text) == text;
    StripEmptyIff(text);
    StripIdempotent(text);
    TidyOne(Strip(text));
  }

  /** Text that is not blank yields at least one sentence. */
  lemma NonBlankTextHasSentence(text: string)
    ensures SplitIntoSentences(text) == [] <==> AllSpace(text)
  {
    var ss := SplitIntoSentences(text);
    SentencesCoverText(text);
    DropSpacesEmptyIff(text);
    if ss == [] {
      assert DropSpaces(Concat(ss)) == [];
      assert multiset(DropSpaces(text)) == multiset{};
    } else {
      SentencesAreStripped(text);
      var all := Concat(ss);
      assert all == ss[0] + Concat(ss[1..]);
      assert all[0] == ss[0][0] && !IsSpace(all[0]);
      DropSpacesEmptyIff(all);
      assert DropSpaces(all) != [];
      assert multiset(DropSpaces(all)) != multiset{};
    }
  }

  lemma PairDisplay(a: string, b: string)
    ensures [a] + [b] == [a, b]
  {
  }

  /** The scan of `"。abc。"`: one match, and `re.sub` leaves the leading
      terminator. */
  lemma ScanWithLeadingTerminator(t: string, m: string)
    requires t == "。abc。" && m == "abc。"
    ensures FindAll(t) == [m] && Removed(t) == "。"
  {
    assert t[1..] == m;
    assert RunLength(m, false) == 3 by {
      assert m[1..] == "bc。" && "bc。"[1..] == "c。" && "c。"[1..] == "。";
    }
    assert RunLength("。", true) == 1 by { assert "。"[1..] == []; }
    assert m[3..] == "。";
    assert MatchEnd(m) == 4;
    assert m[..4] == m && m[4..] == [];
    assert FindAll(t) == FindAll(m);
    assert FindAll(m) == [m] + FindAll([]);
    assert Removed(t) == ['。'] + Removed(m);
    assert Removed(m) == Removed([]);
  }

  /** A leading terminator does not open the first sentence: it is moved to
      the end of the text that `re.sub` leaves, so it ends up in the last
      sentence. */
  lemma LeadingTerminatorMovesToEnd(t: string, m: string, p: string)
    requires t == "。abc。" && m == "abc。" && p == "。"
    ensures SplitIntoSentences(t) == [m, p]
  {
    ScanWithLeadingTerminator(t, m);
    assert m[0] == 'a' && m[3] == '。' && p[0] == '。';
    StrippedIsFixed(m);
    StrippedIsFixed(p);
    SentenceOrder(t);
    TidyOne(m);
    assert SplitIntoSentences(t) == [m] + [p];
    PairDisplay(m, p);
  }

  /** So the sentences of `"。abc。"`, put back together, are not the text. */
  lemma SentencesReorderText(t: string, m: string, p: string)
    requires t == "。abc。" && m == "abc。" && p == "。"
    ensures Concat(SplitIntoSentences(t)) != t
  {
    LeadingTerminatorMovesToEnd(t, m, p);
    PairDisplay(m, p);
    ConcatAppend([m], [p]);
    ConcatOne(m);
    ConcatOne(p);
    assert Concat(SplitIntoSentences(t)) == m + p;
    assert (m + p)[0] != t[0];
  }
  /** A text that starts with a run of non-terminators followed by a run of
      terminators, and goes on with something that does not start with a
      terminator: the scan takes that first piece and resumes after it. */
  lemma MatchThen(body: string, terms: string, rest: string)
    requires body != [] && terms != [] && NoTerminator(body) && AllTerminators(terms)
    requires rest == [] || !IsTerminator(rest[0])
    ensures FindAll(body + terms + rest) == [body + terms] + FindAll(rest)
    ensures Removed(body + terms + rest) == Removed(rest)
  {
    var s := body + terms + rest;
    var b, e := |body|, |body| + |terms|;
    assert s[0] == body[0];
    forall i | 0 <= i < b ensures !IsTerminator(s[i]) {
      assert s[i] == body[i];
    }
    assert IsTerminator(s[b]) by {
      assert s[b] == terms[0];
    }
    assert RunLength(s, false) == b;
    var after := s[b..];
    assert after == terms + rest;
    forall i | 0 <= i < |terms| ensures IsTerminator(after[i]) {
      assert after[i] == terms[i];
    }
    if rest != [] {
      assert after[|terms|] == rest[0];
    }
    assert RunLength(after, true) == |terms|;
    assert MatchEnd(s) == e;
    assert s[..e] == body + terms && s[e..] == rest;
  }

  /** Two sentences, each a run of non-terminators closed by terminators:
      the segmenter yields the cleaned pieces. */
  lemma TwoMatches(b1: string, t1: string, b2: string, t2: string)
    requires b1 != [] && t1 != [] && NoTerminator(b1) && AllTerminators(t1)
    requires b2 != [] && t2 != [] && NoTerminator(b2) && AllTerminators(t2)
    ensures SplitIntoSentences(b1 + t1 + (b2 + t2)) == Tidy([b1 + t1, b2 + t2])
  {
    var p, y := b1 + t1, b2 + t2;
    var x := p + y;
    assert FindAll(x) == [p, y] && Removed(x) == [] by {
      assert y[0] == b2[0];
      MatchThen(b1, t1, y);
      MatchThen(b2, t2, []);
      assert b2 + t2 + [] == y;
      assert FindAll([]) == [] && Removed([]) == [];
      PairDisplay(p, y);
    }
    assert Strip([]) == [];
  }

  /** Two terminated pieces in a row whose `strip()`s are not blank are
      the two sentences those `strip()`s. */
  lemma TwoSentences(b1: string, t1: string, b2: string, t2: string, s1: string, s2: string)
    requires b1 != [] && t1 != [] && NoTerminator(b1) && AllTerminators(t1)
    requires b2 != [] && t2 != [] && NoTerminator(b2) && AllTerminators(t2)
    requires Strip(b1 + t1) == s1 && Strip(b2 + t2) == s2 && s1 != [] && s2 != []
    ensures SplitIntoSentences(b1 + t1 + (b2 + t2)) == [s1, s2]
  {
    TwoMatches(b1, t1, b2, t2);
    TidyPair(b1 + t1, b2 + t2);
    assert Cleaned(b1 + t1) == [s1] && Cleaned(b2 + t2) == [s2];
    PairDisplay(s1, s2);
  }

  /** Cleaning two candidates cleans each in turn. */
  lemma TidyPair(x: string, y: string)
    ensures Tidy([x, y]) == Cleaned(x) + Cleaned(y)
  {
    assert [x, y][0] == x && [x, y][1..] == [y];
    TidyOne(y);
  }

  /** `"Hello world. How are you?"` is two sentences, the second without
      the space that followed the first full stop. */
  lemma EnglishExample(t: string, s1: string, s2: string)
    requires t == "Hello world. How are you?"
    requires s1 == "Hello world." && s2 == "How are you?"
    ensures SplitIntoSentences(t) == [s1, s2]
  {
    var b1, b2 := "Hello world", " How are you";
    EnglishPieces(b1, b2, s1, s2);
    assert t == b1 + "." + (b2 + "?");
    StrippedIsFixed(s1);
    StripAfterSpace(' ', s2);
    TwoSentences(b1, ".", b2, "?", s1, s2);
  }

  lemma EnglishPieces(b1: string, b2: string, s1: string, s2: string)
    requires b1 == "Hello world" && b2 == " How are you"
    requires s1 == "Hello world." && s2 == "How are you?"
    ensures NoTerminator(b1) && NoTerminator(b2)
    ensures AllTerminators(".") && AllTerminators("?")
    ensures s1 == b1 + "." && b2 + "?" == [' '] + s2
    ensures IsStripped(s1) && IsStripped(s2)
  {
    assert s1[0] == 'H' && s1[11] == '.';
    assert s2[0] == 'H' && s2[11] == '?';
  }

  /** `"你好。今天天气不错！"` is two sentences. */
  lemma ChineseSentencesExample(t: string, s1: string, s2: string)
    requires t == "你好。今天天气不错！"
    requires s1 == "你好。" && s2 == "今天天气不错！"
    ensures SplitIntoSentences(t) == [s1, s2]
  {
    var b1, b2 := "你好", "今天天气不错";
    ChinesePieces(b1, b2, s1, s2);
    assert t == b1 + "。" + (b2 + "！");
    StrippedIsFixed(s1);
    StrippedIsFixed(s2);
    TwoSentences(b1, "。", b2, "！", s1, s2);
  }

  lemma ChinesePieces(b1: string, b2: string, s1: string, s2: string)
    requires b1 == "你好" && b2 == "今天天气不错"
    requires s1 == "你好。" && s2 == "今天天气不错！"
    ensures NoTerminator(b1) && NoTerminator(b2)
    ensures AllTerminators("。") && AllTerminators("！")
    ensures s1 == b1 + "。" && s2 == b2 + "！"
    ensures IsStripped(s1) && IsStripped(s2)
  {
    assert s1[0] == '你' && s1[2] == '。';
    assert s2[0] == '今' && s2[6] == '！';
  }
  /** A line break inside a terminator run stays in the sentence: `strip()`
      only trims the ends, so `"a.\n.b"` is the two sentences `"a.\n."`
      and `"b"`, the first holding a line break. */
  lemma LineBreakInsideSentence(t: string, s1: string, s2: string)
    requires t == "a.\n.b" && s1 == "a.\n." && s2 == "b"
    ensures SplitIntoSentences(t) == [s1, s2]
    ensures '\n' in s1
  {
    BreakPieces(t, s1, s2);
    MatchThen("a", ".\n.", s2);
    assert FindAll(t) == [s1] + FindAll(s2) && Removed(t) == Removed(s2);
    assert FindAll(s2) == [] && Removed(s2) == s2;
    StrippedIsFixed(s1);
    StrippedIsFixed(s2);
    SentenceOrder(t);
    TidyOne(s1);
    assert SplitIntoSentences(t) == [s1] + [s2];
    PairDisplay(s1, s2);
  }

  lemma BreakPieces(t: string, s1: string, s2: string)
    requires t == "a.\n.b" && s1 == "a.\n." && s2 == "b"
    ensures NoTerminator("a") && AllTerminators(".\n.")
    ensures t == "a" + ".\n." + s2 && s1 == "a" + ".\n."
    ensures !IsTerminator(s2[0]) && RunLength(s2, false) == |s2|
    ensures IsStripped(s1) && IsStripped(s2) && s1[2] == '\n'
  {
    assert s1[0] == 'a' && s1[3] == '.';
  }
}
