/** Strings as Python's `split`, `strip` and `\s` see them. */
module Text {
  import opened Collections

  /** `str.isspace` for one character. */
  predicate IsSpace(c: char) {
    var n := c as int;
    || 0x09 <= n <= 0x0d
    || 0x1c <= n <= 0x20
    || n in {0x85, 0xa0, 0x1680, 0x2028, 0x2029, 0x202f, 0x205f, 0x3000}
    || 0x2000 <= n <= 0x200a
  }

  predicate Blank(s: string) {
    forall c | c in s :: IsSpace(c)
  }

  predicate IsWord(w: string) {
    w != "" && forall c | c in w :: !IsSpace(c)
  }

  // ------------------------------------------------------------------- words

  /** Length of the leading run of characters that are not spaces. */
  function WordEnd(s: string): (n: nat)
    ensures n <= |s|
    ensures forall i :: 0 <= i < n ==> !IsSpace(s[i])
    ensures n < |s| ==> IsSpace(s[n])
  {
    if s == "" || IsSpace(s[0]) then 0 else 1 + WordEnd(s[1..])
  }

  /** `s.split()`. */
  function Words(s: string): seq<string>
    decreases |s|
  {
    if s == "" then []
    else if IsSpace(s[0]) then Words(s[1..])
    else [s[..WordEnd(s)]] + Words(s[WordEnd(s)..])
  }

  /** The words of all the strings, in order. */
  function AllWords(ss: seq<string>): seq<string> {
    if ss == [] then [] else Words(ss[0]) + AllWords(ss[1..])
  }

  lemma {:induction false} AllWordsConcat(a: seq<string>, b: seq<string>)
    ensures AllWords(a + b) == AllWords(a) + AllWords(b)
  {
    if a == [] {
      assert a + b == b;
    } else {
      assert (a + b)[1..] == a[1..] + b;
      AllWordsConcat(a[1..], b);
    }
  }

  lemma {:induction false} WordsAreWords(s: string)
    ensures forall w | w in Words(s) :: IsWord(w)
    decreases |s|
  {
    if s != "" {
      if IsSpace(s[0]) {
        WordsAreWords(s[1..]);
      } else {
        WordsAreWords(s[WordEnd(s)..]);
        assert IsWord(s[..WordEnd(s)]);
      }
    }
  }

  lemma WordsOfWord(w: string)
    requires IsWord(w)
    ensures Words(w) == [w]
  {
    var n := WordEnd(w);
    assert forall i :: 0 <= i < |w| ==> w[i] in w;
    assert w[..n] == w && w[n..] == "";
  }

  /** A cut next to a space does not cut a word. */
  lemma {:induction false} WordsSplitAtSpace(a: string, b: string)
    requires a == "" || b == "" || IsSpace(b[0]) || IsSpace(a[|a| - 1])
    ensures Words(a + b) == Words(a) + Words(b)
    decreases |a|
  {
    if a == "" {
      assert a + b == b;
    } else if IsSpace(a[0]) {
      assert (a + b)[1..] == a[1..] + b;
      WordsSplitAtSpace(a[1..], b);
    } else {
      var n := WordEnd(a);
      assert WordEnd(a + b) == n by {
        assert forall i :: 0 <= i < n ==> (a + b)[i] == a[i];
        var m := WordEnd(a + b);
        if n < |a| {
          assert (a + b)[n] == a[n];
        } else if b != "" {
          assert (a + b)[n] == b[0];
        }
      }
      assert (a + b)[..n] == a[..n];
      assert (a + b)[n..] == a[n..] + b;
      WordsSplitAtSpace(a[n..], b);
    }
  }

  /** Joining with one space joins the words. */
  lemma WordsOfJoin(a: string, b: string)
    ensures Words(a + " " + b) == Words(a) + Words(b)
  {
    assert IsSpace(' ');
    WordsSplitAtSpace(a, " " + b);
    assert a + " " + b == a + (" " + b);
    WordsSplitAtSpace(" ", b);
    assert Words(" ") == [] by {
      assert " "[1..] == "";
    }
  }

  lemma {:induction false} BlankHasNoWords(s: string)
    ensures Blank(s) <==> Words(s) == []
  {
    if s != "" {
      assert forall c :: c in s <==> c == s[0] || c in s[1..];
      if IsSpace(s[0]) {
        BlankHasNoWords(s[1..]);
      }
    }
  }

  /** `s.find(c)`. */
  function IndexOf(s: string, c: char): (r: Option<nat>)
    ensures r.Some? ==> r.value < |s| && s[r.value] == c && forall j :: 0 <= j < r.value ==> s[j] != c
    ensures r.None? ==> c !in s
  {
    if s == "" then None
    else if s[0] == c then Some(0)
    else
      match IndexOf(s[1..], c)
      case Some(i) => Some(i + 1)
      case None => None
  }

  /** Strings joined by single spaces. */
  function Join(parts: seq<string>): string
    requires parts != []
  {
    if |parts| == 1 then parts[0] else Join(parts[..|parts| - 1]) + " " + parts[|parts| - 1]
  }

  lemma JoinSnoc(parts: seq<string>, next: string)
    requires parts != []
    ensures Join(parts + [next]) == Join(parts) + " " + next
  {
    assert (parts + [next])[..|parts|] == parts;
  }

  // ------------------------------------------------------------------- strip

  function StripLeft(s: string): string {
    if s != "" && IsSpace(s[0]) then StripLeft(s[1..]) else s
  }

  function StripRight(s: string): string {
    if s != "" && IsSpace(s[|s| - 1]) then StripRight(s[..|s| - 1]) else s
  }

  /** `s.strip()`. */
  function Strip(s: string): string {
    StripRight(StripLeft(s))
  }

  predicate Stripped(s: string) {
    s != "" ==> !IsSpace(s[0]) && !IsSpace(s[|s| - 1])
  }

  lemma {:induction false} StripLeftFacts(s: string)
    ensures var t := StripLeft(s); |t| <= |s| && Words(t) == Words(s) && (t != "" ==> !IsSpace(t[0]))
  {
    if s != "" && IsSpace(s[0]) {
      StripLeftFacts(s[1..]);
    }
  }

  lemma {:induction false} StripRightFacts(s: string)
    requires s != "" ==> !IsSpace(s[0])
    ensures var t := StripRight(s); |t| <= |s| && Words(t) == Words(s) && Stripped(t)
  {
    if s != "" && IsSpace(s[|s| - 1]) {
      var init := s[..|s| - 1];
      assert s == init + [s[|s| - 1]];
      WordsSplitAtSpace(init, [s[|s| - 1]]);
      assert Words([s[|s| - 1]]) == [] by {
        assert [s[|s| - 1]][1..] == "";
      }
      StripRightFacts(init);
    }
  }

  /** Stripping drops no word, never lengthens, and leaves no space at either end. */
  lemma StripFacts(s: string)
    ensures |Strip(s)| <= |s| && Words(Strip(s)) == Words(s) && Stripped(Strip(s))
    ensures Strip(s) == "" <==> Blank(s)
    ensures Stripped(s) ==> Strip(s) == s
  {
    StripLeftFacts(s);
    StripRightFacts(StripLeft(s));
    BlankHasNoWords(s);
    BlankHasNoWords(Strip(s));
    var t := Strip(s);
    if t != "" {
      assert t[0] in t;
    }
  }

  lemma {:induction false} StripLeftIs(s: string)
    ensures |StripLeft(s)| <= |s| && s[|s| - |StripLeft(s)|..] == StripLeft(s)
    ensures Blank(s[..|s| - |StripLeft(s)|])
  {
    if s != "" && IsSpace(s[0]) {
      StripLeftIs(s[1..]);
      var n := |s| - |StripLeft(s)|;
      assert s[..n] == [s[0]] + s[1..][..n - 1];
      assert s[n..] == s[1..][n - 1..];
    }
  }

  lemma {:induction false} StripRightIs(s: string)
    ensures |StripRight(s)| <= |s| && s[..|StripRight(s)|] == StripRight(s)
    ensures Blank(s[|StripRight(s)|..])
  {
    if s != "" && IsSpace(s[|s| - 1]) {
      var init := s[..|s| - 1];
      StripRightIs(init);
      var n := |StripRight(s)|;
      assert s[n..] == init[n..] + [s[|s| - 1]];
      assert s[..n] == init[..n];
    }
  }

  /** Stripping takes spaces off the ends and touches nothing in between. */
  lemma StripIs(s: string) returns (left: string, right: string)
    ensures s == left + Strip(s) + right && Blank(left) && Blank(right)
  {
    var t := StripLeft(s);
    StripLeftIs(s);
    StripRightIs(t);
    left, right := s[..|s| - |t|], t[|Strip(s)|..];
    assert s == left + t && t == Strip(s) + right;
  }

  // --------------------------------------------------------------- sentences

  predicate IsTerminator(c: char) {
    c in {'.', '!', '?'}
  }

  /** A space right after a terminator. */
  predicate BreakAt(s: string, i: nat) {
    0 < i < |s| && IsSpace(s[i]) && IsTerminator(s[i - 1])
  }

  /** The first break at or after `i`, or the length of `s`. */
  function FirstBreak(s: string, i: nat): (k: nat)
    requires i <= |s|
    ensures i <= k <= |s|
    ensures k < |s| ==> BreakAt(s, k)
    ensures forall j :: i <= j < k ==> !BreakAt(s, j)
    decreases |s| - i
  {
    if i == |s| || BreakAt(s, i) then i else FirstBreak(s, i + 1)
  }

  /** The end of the run of spaces that starts at `i`. */
  function SpaceEnd(s: string, i: nat): (k: nat)
    requires i <= |s|
    ensures i <= k <= |s|
    ensures forall j :: i <= j < k ==> IsSpace(s[j])
    ensures k < |s| ==> !IsSpace(s[k])
    decreases |s| - i
  {
    if i == |s| || !IsSpace(s[i]) then i else SpaceEnd(s, i + 1)
  }

  /** Splitting at the runs of spaces that follow a terminator, as the sentence pattern does. */
  function Parts(s: string): seq<string>
    decreases |s|
  {
    var k := FirstBreak(s, 0);
    if k == |s| then [s] else [s[..k]] + Parts(s[SpaceEnd(s, k)..])
  }

  function Sentences(s: string): seq<string> {
    Filter(Parts(s), p => !Blank(p))
  }

  /** Leaving out a run of spaces drops no word. */
  lemma WordsAcrossSpaces(a: string, gap: string, b: string)
    requires gap != "" && Blank(gap)
    ensures Words(a + (gap + b)) == Words(a) + Words(b)
  {
    assert gap[0] in gap && gap[|gap| - 1] in gap;
    WordsSplitAtSpace(a, gap + b);
    WordsSplitAtSpace(gap, b);
    BlankHasNoWords(gap);
  }

  lemma {:induction false} PartsKeepWords(s: string)
    ensures AllWords(Parts(s)) == Words(s)
    decreases |s|
  {
    var k := FirstBreak(s, 0);
    if k == |s| {
      assert [s][1..] == [];
    } else {
      var j := SpaceEnd(s, k);
      assert s == s[..k] + (s[k..j] + s[j..]);
      WordsAcrossSpaces(s[..k], s[k..j], s[j..]);
      PartsKeepWords(s[j..]);
      assert Parts(s)[1..] == Parts(s[j..]);
    }
  }

  lemma {:induction false} FilterKeepsWords(ss: seq<string>)
    ensures AllWords(Filter(ss, p => !Blank(p))) == AllWords(ss)
  {
    if ss != [] {
      FilterKeepsWords(ss[1..]);
      BlankHasNoWords(ss[0]);
      var rest := Filter(ss[1..], p => !Blank(p));
      if !Blank(ss[0]) {
        assert ([ss[0]] + rest)[1..] == rest;
      }
    }
  }

  /** Sentence splitting loses no word. */
  lemma SentencesKeepWords(s: string)
    ensures AllWords(Sentences(s)) == Words(s)
    ensures forall p | p in Sentences(s) :: !Blank(p)
  {
    PartsKeepWords(s);
    FilterKeepsWords(Parts(s));
    FilterMembers(Parts(s), p => !Blank(p));
  }

  ghost predicate NoBreak(p: string) {
    forall j: nat :: !BreakAt(p, j)
  }

  predicate EndsSentence(p: string) {
    p != "" && IsTerminator(p[|p| - 1])
  }

  predicate StartsClean(p: string) {
    p != "" ==> !IsSpace(p[0])
  }

  /** The split is made at every sentence end and nowhere else: no part has a break inside,
      every part but the last ends a sentence, every part but the first starts after the spaces. */
  lemma {:induction false} PartsAreExact(s: string)
    ensures Parts(s) != []
    ensures forall i :: 0 <= i < |Parts(s)| ==> NoBreak(Parts(s)[i])
    ensures forall i :: 0 <= i < |Parts(s)| - 1 ==> EndsSentence(Parts(s)[i])
    ensures forall i :: 0 < i < |Parts(s)| ==> StartsClean(Parts(s)[i])
    ensures StartsClean(s) ==> StartsClean(Parts(s)[0])
    decreases |s|
  {
    var k := FirstBreak(s, 0);
    HeadHasNoBreak(s);
    if k < |s| {
      PartsAreExact(s[SpaceEnd(s, k)..]);
      var rest := Parts(s[SpaceEnd(s, k)..]);
      assert Parts(s) == [s[..k]] + rest;
      assert StartsClean(s[SpaceEnd(s, k)..]);
    }
  }

  lemma HeadHasNoBreak(s: string)
    ensures NoBreak(s[..FirstBreak(s, 0)])
  {
    var k := FirstBreak(s, 0);
    forall j: nat ensures !BreakAt(s[..k], j) {
      if j < k {
        assert !BreakAt(s, j);
      }
    }
  }

  /** Parts with the gaps between them put back. */
  function Spliced(parts: seq<string>, gaps: seq<string>): string
    requires |parts| == |gaps| + 1
  {
    if gaps == [] then parts[0] else parts[0] + gaps[0] + Spliced(parts[1..], gaps[1..])
  }

  lemma SplicedCons(part: string, gap: string, parts: seq<string>, gaps: seq<string>)
    requires |parts| == |gaps| + 1
    ensures Spliced([part] + parts, [gap] + gaps) == part + gap + Spliced(parts, gaps)
  {
    assert ([part] + parts)[1..] == parts && ([gap] + gaps)[1..] == gaps;
  }

  lemma CutInThree(s: string, i: nat, j: nat)
    requires i <= j <= |s|
    ensures s == s[..i] + s[i..j] + s[j..]
  {
  }

  /** Nothing but the spaces between the parts is left out, and nothing in a part is changed. */
  lemma {:induction false} PartsRebuild(s: string) returns (gaps: seq<string>)
    ensures |Parts(s)| == |gaps| + 1 && Spliced(Parts(s), gaps) == s
    ensures forall i :: 0 <= i < |gaps| ==> gaps[i] != "" && Blank(gaps[i])
    decreases |s|
  {
    var k := FirstBreak(s, 0);
    if k == |s| {
      gaps := [];
    } else {
      var j := SpaceEnd(s, k);
      var rest := PartsRebuild(s[j..]);
      gaps := [s[k..j]] + rest;
      SplicedCons(s[..k], s[k..j], Parts(s[j..]), rest);
      CutInThree(s, k, j);
    }
  }
}
