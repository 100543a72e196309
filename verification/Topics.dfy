/** Topic patterns: what the string tests of `_topic_matches` mean for dot-separated segments. */
module Topics {
  import opened Collections
  import opened Text

  predicate StartsWith(s: string, prefix: string) {
    prefix <= s
  }

  predicate EndsWith(s: string, suffix: string) {
    |suffix| <= |s| && s[|s| - |suffix|..] == suffix
  }

  /** `"**" in s`. */
  predicate HasDoubleStar(s: string) {
    exists i :: 0 <= i < |s| - 1 && s[i] == '*' && s[i + 1] == '*'
  }

  /** `s.replace("**", "")`. */
  function DropDoubleStars(s: string): string {
    if s == "" then ""
    else if |s| >= 2 && s[0] == '*' && s[1] == '*' then DropDoubleStars(s[2..])
    else [s[0]] + DropDoubleStars(s[1..])
  }

  /** `s.rstrip(".")`. */
  function StripDots(s: string): string {
    if s != "" && s[|s| - 1] == '.' then StripDots(s[..|s| - 1]) else s
  }

  predicate TopicMatches(topic: string, pattern: string) {
    if pattern == "*" then true
    else if HasDoubleStar(pattern) then StartsWith(topic, StripDots(DropDoubleStars(pattern)))
    else if EndsWith(pattern, ".*") then
      var prefix := pattern[..|pattern| - 2];
      StartsWith(topic, prefix + ".") && '.' !in topic[|prefix| + 1..]
    else topic == pattern
  }

  // ---------------------------------------------------------------- segments

  /** `s.split(".")`. */
  function Segments(s: string): (r: seq<string>)
    ensures r != []
  {
    match IndexOf(s, '.')
    case None => [s]
    case Some(i) => [s[..i]] + Segments(s[i + 1..])
  }

  function Joined(segments: seq<string>): string
    requires segments != []
  {
    if |segments| == 1 then segments[0] else segments[0] + "." + Joined(segments[1..])
  }

  lemma JoinedCons(head: string, tail: seq<string>)
    requires tail != []
    ensures Joined([head] + tail) == head + "." + Joined(tail)
  {
    assert ([head] + tail)[1..] == tail;
  }

  lemma {:induction false} JoinedSegments(s: string)
    ensures Joined(Segments(s)) == s
  {
    match IndexOf(s, '.')
    case None =>
    case Some(i) =>
      var head, tail := s[..i], s[i + 1..];
      JoinedSegments(tail);
      JoinedCons(head, Segments(tail));
      assert s == head + "." + tail;
  }

  lemma {:induction false} SegmentsHaveNoDots(s: string)
    ensures forall x | x in Segments(s) :: '.' !in x
  {
    match IndexOf(s, '.')
    case None =>
    case Some(i) => SegmentsHaveNoDots(s[i + 1..]);
  }

  lemma FirstDot(s: string, i: nat)
    requires i < |s| && s[i] == '.' && forall j :: 0 <= j < i ==> s[j] != '.'
    ensures IndexOf(s, '.') == Some(i)
  {
    assert s[i] in s;
  }

  /** Splitting a join at one of its dots. */
  lemma {:induction false} SegmentsOfJoin(a: string, b: string)
    ensures Segments(a + "." + b) == Segments(a) + Segments(b)
  {
    var s := a + "." + b;
    match IndexOf(a, '.')
    case None =>
      assert s[..|a|] == a;
      FirstDot(s, |a|);
      assert s[|a| + 1..] == b;
    case Some(i) =>
      assert s[..i] == a[..i];
      FirstDot(s, i);
      assert s[i + 1..] == a[i + 1..] + "." + b;
      SegmentsOfJoin(a[i + 1..], b);
  }

  lemma SegmentsInjective(a: string, b: string)
    requires Segments(a) == Segments(b)
    ensures a == b
  {
    JoinedSegments(a);
    JoinedSegments(b);
  }

  lemma NoDotOneSegment(x: string)
    requires '.' !in x
    ensures Segments(x) == [x]
  {
  }

  lemma SuffixOf(p: string, suffix: string)
    ensures EndsWith(p + suffix, suffix) && (p + suffix)[..|p|] == p
  {
  }

  /** The patterns that `_topic_matches` treats as wildcards. */
  predicate HasWildcard(pattern: string) {
    pattern == "*" || HasDoubleStar(pattern) || EndsWith(pattern, ".*")
  }

  lemma NoStarNoWildcard(pattern: string)
    requires '*' !in pattern
    ensures !HasWildcard(pattern)
  {
    assert forall i :: 0 <= i < |pattern| ==> pattern[i] in pattern;
    assert |pattern| >= 2 ==> pattern[|pattern| - 2..][1] == pattern[|pattern| - 1];
  }

  /** Any other pattern, with a star in it or not, matches the topic of the same segments only. */
  lemma PlainPattern(topic: string, pattern: string)
    requires !HasWildcard(pattern)
    ensures TopicMatches(topic, pattern) <==> topic == pattern
    ensures TopicMatches(topic, pattern) <==> Segments(topic) == Segments(pattern)
  {
    if Segments(topic) == Segments(pattern) {
      SegmentsInjective(topic, pattern);
    }
  }

  /** A pattern `p.*` matches the topics that have exactly one more segment than `p`, whatever
      that segment is. */
  lemma SingleWildcard(topic: string, p: string)
    requires !HasDoubleStar(p + ".*")
    ensures TopicMatches(topic, p + ".*") <==> exists x :: Segments(topic) == Segments(p) + [x]
  {
    var pattern := p + ".*";
    SuffixOf(p, ".*");
    assert pattern[|p|] == '.' && pattern != "*";
    if TopicMatches(topic, pattern) {
      var x := topic[|p| + 1..];
      assert topic == p + "." + x;
      SegmentsOfJoin(p, x);
      NoDotOneSegment(x);
    }
    if x :| Segments(topic) == Segments(p) + [x] {
      assert Segments(topic)[|Segments(p)|] == x;
      SegmentsHaveNoDots(topic);
      SegmentsOfJoin(p, x);
      NoDotOneSegment(x);
      SegmentsInjective(topic, p + "." + x);
      assert topic == p + "." + x && topic[|p| + 1..] == x;
      assert StartsWith(topic, p + ".");
    }
  }

  lemma {:induction false} NoStarsNothingDropped(s: string)
    requires '*' !in s
    ensures DropDoubleStars(s + "**") == s
  {
    if s == "" {
      assert (s + "**")[2..] == "";
    } else {
      assert (s + "**")[0] == s[0] && s[0] in s;
      assert (s + "**")[1..] == s[1..] + "**";
      NoStarsNothingDropped(s[1..]);
    }
  }

  /** The prefix that is left of `q.**`. */
  lemma DoubleStarPrefix(topic: string, q: string)
    requires '*' !in q && (q == "" || q[|q| - 1] != '.')
    ensures TopicMatches(topic, q + ".**") <==> StartsWith(topic, q)
  {
    var pattern := q + ".**";
    assert pattern == (q + ".") + "**";
    NoStarsNothingDropped(q + ".");
    assert pattern[|q| + 1] == '*' && pattern[|q| + 2] == '*';
    assert (q + ".")[..|q|] == q;
    assert StripDots(q + ".") == StripDots(q) == q;
  }

  /** Segments of `q` first, in the sense of whole segments. */
  lemma SegmentPrefix(topic: string, q: string)
    ensures Segments(q) <= Segments(topic) <==> topic == q || StartsWith(topic, q + ".")
  {
    if StartsWith(topic, q + ".") {
      var rest := topic[|q| + 1..];
      assert topic == q + "." + rest;
      SegmentsOfJoin(q, rest);
    }
    if Segments(q) <= Segments(topic) {
      PrefixOfSegments(topic, q);
    }
  }

  lemma PrefixOfSegments(topic: string, q: string)
    requires Segments(q) <= Segments(topic)
    ensures topic == q || StartsWith(topic, q + ".")
  {
    var a, b := Segments(q), Segments(topic)[|Segments(q)|..];
    assert Segments(topic) == a + b;
    JoinedSegments(q);
    JoinedSegments(topic);
    if b == [] {
      assert a + b == a;
    } else {
      JoinedSplit(a, b);
    }
  }

  lemma {:induction false} JoinedSplit(a: seq<string>, b: seq<string>)
    requires a != [] && b != []
    ensures Joined(a + b) == Joined(a) + "." + Joined(b)
  {
    if |a| == 1 {
      assert (a + b)[1..] == b;
    } else {
      JoinedSplit(a[1..], b);
      assert (a + b)[1..] == a[1..] + b;
    }
  }

  /** A pattern `q.**` is meant to match the topics under `q`. It does so exactly for topics that
      do not go on in the middle of the last segment of `q`; those it matches as well. */
  lemma DoubleStarOvermatches(topic: string, q: string)
    requires '*' !in q && (q == "" || q[|q| - 1] != '.')
    ensures (TopicMatches(topic, q + ".**") <==> Segments(q) <= Segments(topic))
       <==> !(StartsWith(topic, q) && |topic| > |q| && topic[|q|] != '.')
  {
    DoubleStarPrefix(topic, q);
    SegmentPrefix(topic, q);
    if StartsWith(topic, q) && |topic| > |q| && topic[|q|] == '.' {
      assert q + "." == topic[..|q| + 1];
    }
    if StartsWith(topic, q + ".") {
      assert (q + ".")[|q|] == '.' && topic[..|q|] == q;
    }
  }

  /** For instance, a subscription to what is under "agent" hears of "agents". */
  lemma AgentsIsNoAgent()
    ensures TopicMatches("agents", "agent.**") && !(Segments("agent") <= Segments("agents"))
  {
    var q, topic := "agent", "agents";
    assert StartsWith(topic, q) && topic[|q|] != '.';
    DoubleStarPrefix(topic, q);
    DoubleStarOvermatches(topic, q);
    assert q + ".**" == "agent.**";
  }

  // ------------------------------------------------------ double stars anywhere

  lemma {:induction false} DoubleStarWithin(a: string, b: string)
    ensures HasDoubleStar(a + "**" + b)
  {
    assert (a + "**" + b)[|a|] == '*' && (a + "**" + b)[|a| + 1] == '*';
  }

  /** The first pair of stars goes, and the rest is treated likewise. */
  lemma {:induction false} DropFirst(a: string, b: string)
    requires !HasDoubleStar(a + "*")
    ensures DropDoubleStars(a + "**" + b) == a + DropDoubleStars(b)
  {
    var s := a + "**" + b;
    if a == "" {
      assert s[2..] == b;
    } else {
      var t := a + "*";
      assert forall i :: 0 <= i < |t| ==> s[i] == t[i];
      assert !(s[0] == '*' && s[1] == '*') by {
        assert t[0] == s[0] && t[1] == s[1];
      }
      assert s[1..] == a[1..] + "**" + b;
      assert t[1..] == a[1..] + "*";
      DropFirst(a[1..], b);
    }
  }

  /** What `rstrip(".")` leaves: all but the dots at the end. */
  lemma {:induction false} StripDotsIs(s: string)
    ensures var t := StripDots(s);
      && t <= s && (t == "" || t[|t| - 1] != '.')
      && forall i :: |t| <= i < |s| ==> s[i] == '.'
  {
    if s != "" && s[|s| - 1] == '.' {
      StripDotsIs(s[..|s| - 1]);
    }
  }

  lemma {:induction false} NoPairsNothingDropped(s: string)
    requires !HasDoubleStar(s)
    ensures DropDoubleStars(s) == s
  {
    if s != "" {
      assert forall i :: 0 <= i < |s[1..]| ==> s[1..][i] == s[i + 1];
      NoPairsNothingDropped(s[1..]);
    }
  }

  /** Every pattern with `**` in it, cut at the first one: what follows the stars does not say how
      the topic ends, but is glued to what goes before them, up to the dots at the end. */
  lemma DoubleStarAnywhere(topic: string, a: string, b: string)
    requires !HasDoubleStar(a + "*")
    ensures TopicMatches(topic, a + "**" + b) <==> StartsWith(topic, StripDots(a + DropDoubleStars(b)))
    ensures !HasDoubleStar(b) ==>
      (TopicMatches(topic, a + "**" + b) <==> StartsWith(topic, StripDots(a + b)))
  {
    DoubleStarWithin(a, b);
    DropFirst(a, b);
    if !HasDoubleStar(b) {
      NoPairsNothingDropped(b);
    }
  }

  lemma NoPairInFront(c: char, s: string)
    requires s != "" && !HasDoubleStar(s) && !(c == '*' && s[0] == '*')
    ensures !HasDoubleStar([c] + s)
  {
  }

  /** Every pattern with `**` in it can be cut like that. */
  lemma {:induction false} CutAtFirst(pattern: string) returns (a: string, b: string)
    requires HasDoubleStar(pattern)
    ensures pattern == a + "**" + b && !HasDoubleStar(a + "*")
  {
    if pattern[0] == '*' && pattern[1] == '*' {
      a, b := "", pattern[2..];
    } else {
      var i :| 0 <= i < |pattern| - 1 && pattern[i] == '*' && pattern[i + 1] == '*';
      assert pattern[1..][i - 1] == '*' && pattern[1..][i] == '*';
      a, b := CutAtFirst(pattern[1..]);
      assert pattern[1] == (a + "**" + b)[0] == (a + "*")[0];
      NoPairInFront(pattern[0], a + "*");
      a := [pattern[0]] + a;
      assert a + "*" == [pattern[0]] + (a[1..] + "*");
    }
  }

  /** Stars alone match every topic. */
  lemma StarsMatchAll(topic: string)
    ensures TopicMatches(topic, "**") && TopicMatches(topic, "*")
  {
    DoubleStarAnywhere(topic, "", "");
    assert "" + "**" + "" == "**";
  }
}
