/** Group handles: the slug passes of internal/api/groups.go and the format they must meet.

    Text arrives already folded (Unicode decomposed, marks removed, lowercased): that step belongs
    to libraries outside this model. From there on every character matters and none is assumed. */
module Handles {

  const MIN_HANDLE := 3
  const MAX_HANDLE := 100

  predicate IsAlnum(c: char) { 'a' <= c <= 'z' || '0' <= c <= '9' }

  predicate IsHandleChar(c: char) { IsAlnum(c) || c == '-' }

  /** The characters of handles spelled out. */
  lemma AlnumIs(c: char)
    ensures IsAlnum(c) <==> c in "abcdefghijklmnopqrstuvwxyz" || c in "0123456789"
  {
    LettersAre(c);
    DigitsAre(c);
  }

  lemma LettersAre(c: char)
    ensures 'a' <= c <= 'z' <==> c in "abcdefghijklmnopqrstuvwxyz"
  {
    var letters := "abcdefghijklmnopqrstuvwxyz";
    if 'a' <= c <= 'z' { assert letters[c as int - 'a' as int] == c; }
  }

  lemma DigitsAre(c: char)
    ensures '0' <= c <= '9' <==> c in "0123456789"
  {
    var digits := "0123456789";
    if '0' <= c <= '9' { assert digits[c as int - '0' as int] == c; }
  }

  // ---------------------------------------------------------------- the passes

  /** Replaces every maximal run of characters in p by one hyphen; inRun: such a run is under way. */
  function ReplaceRuns(s: string, p: char -> bool, inRun: bool := false): string
  {
    if s == "" then ""
    else if p(s[0]) then (if inRun then "" else "-") + ReplaceRuns(s[1..], p, true)
    else [s[0]] + ReplaceRuns(s[1..], p, false)
  }

  const NOT_HANDLE_CHAR: char -> bool := c => !IsHandleChar(c)
  const NOT_ALNUM: char -> bool := c => !IsAlnum(c)
  const IS_HYPHEN: char -> bool := c => c == '-'

  function TrimLeft(s: string): string
  {
    if s != "" && s[0] == '-' then TrimLeft(s[1..]) else s
  }

  function TrimRight(s: string): string
  {
    if s != "" && s[|s| - 1] == '-' then TrimRight(s[..|s| - 1]) else s
  }

  function TrimHyphens(s: string): string { TrimRight(TrimLeft(s)) }

  function GenerateHandle(folded: string): string
  {
    var replaced := ReplaceRuns(folded, NOT_HANDLE_CHAR);
    var collapsed := ReplaceRuns(replaced, IS_HYPHEN);
    var trimmed := TrimHyphens(collapsed);
    var cut := if |trimmed| > MAX_HANDLE then TrimHyphens(trimmed[..MAX_HANDLE]) else trimmed;
    if |cut| < MIN_HANDLE then "" else cut
  }

  predicate IsValidHandle(h: string)
  {
    MIN_HANDLE <= |h| <= MAX_HANDLE &&
    IsAlnum(h[0]) && IsAlnum(h[|h| - 1]) && forall i | 0 <= i < |h| :: IsHandleChar(h[i])
  }

  /** The format spelled out. */
  lemma ValidHandleIs(h: string)
    ensures IsValidHandle(h) <==>
              && 3 <= |h| <= 100 && h[0] != '-' && h[|h| - 1] != '-'
              && forall c | c in h :: c == '-' || c in "abcdefghijklmnopqrstuvwxyz" || c in "0123456789"
  {
    forall c ensures IsAlnum(c) <==> c in "abcdefghijklmnopqrstuvwxyz" || c in "0123456789" { AlnumIs(c); }
  }

  // ---------------------------------------------------------------- what the passes mean

  /** Length of the alphanumeric run s starts with. */
  function RunLength(s: string): (n: nat)
    ensures n <= |s|
    ensures forall i | 0 <= i < n :: IsAlnum(s[i])
    ensures n < |s| ==> !IsAlnum(s[n])
  {
    if s != "" && IsAlnum(s[0]) then 1 + RunLength(s[1..]) else 0
  }

  /** The maximal alphanumeric runs of s, in order. */
  function Words(s: string): seq<string>
    decreases |s|
  {
    if s == "" then []
    else if IsAlnum(s[0]) then [s[..RunLength(s)]] + Words(s[RunLength(s)..])
    else Words(s[1..])
  }

  function Join(words: seq<string>): string
  {
    if words == [] then ""
    else if |words| == 1 then words[0]
    else words[0] + "-" + Join(words[1..])
  }

  function Slug(s: string): string { Join(Words(s)) }

  /** At most n characters of a slug, without the hyphen a cut may leave at the end. */
  function CutSlug(s: string, n: nat): string
    requires n > 0
  {
    if |s| <= n then s else if s[n - 1] == '-' then s[..n - 1] else s[..n]
  }

  function HandleSpec(folded: string): string
  {
    var h := CutSlug(Slug(folded), MAX_HANDLE);
    if |h| < MIN_HANDLE then "" else h
  }

  /** Slug-shaped: alphanumeric at both ends, no two hyphens in a row. */
  predicate IsSlug(s: string)
  {
    s != "" && IsAlnum(s[0]) && IsAlnum(s[|s| - 1]) && Single(s)
  }

  predicate Single(s: string)
  {
    (forall i | 0 <= i < |s| :: IsHandleChar(s[i])) &&
    forall i | 0 < i < |s| :: !(s[i - 1] == '-' && s[i] == '-')
  }

  // ---------------------------------------------------------------- proofs

  /** Replacing foreign runs and then collapsing hyphens is one replacement of non-alphanumeric runs. */
  lemma {:induction false} CollapseAfterReplace(s: string, inRun: bool, hyphen: bool)
    requires inRun ==> hyphen
    ensures ReplaceRuns(ReplaceRuns(s, NOT_HANDLE_CHAR, inRun), IS_HYPHEN, hyphen) == ReplaceRuns(s, NOT_ALNUM, hyphen)
  {
    if s != "" {
      var c, rest := s[0], s[1..];
      if IsAlnum(c) {
        CollapseAfterReplace(rest, false, false);
        Unfold(c, ReplaceRuns(rest, NOT_HANDLE_CHAR, false), IS_HYPHEN, hyphen);
      } else if c == '-' {
        CollapseAfterReplace(rest, false, true);
        Unfold(c, ReplaceRuns(rest, NOT_HANDLE_CHAR, false), IS_HYPHEN, hyphen);
      } else {
        CollapseAfterReplace(rest, true, true);
        if inRun {
          assert ReplaceRuns(s, NOT_HANDLE_CHAR, inRun) == ReplaceRuns(rest, NOT_HANDLE_CHAR, true);
        } else {
          Unfold('-', ReplaceRuns(rest, NOT_HANDLE_CHAR, true), IS_HYPHEN, hyphen);
          assert ReplaceRuns(s, NOT_HANDLE_CHAR, inRun) == ['-'] + ReplaceRuns(rest, NOT_HANDLE_CHAR, true);
        }
      }
    }
  }

  lemma Unfold(c: char, rest: string, p: char -> bool, inRun: bool)
    ensures ReplaceRuns([c] + rest, p, inRun)
         == (if p(c) then (if inRun then "" else "-") else [c]) + ReplaceRuns(rest, p, p(c))
  {
    assert ([c] + rest)[1..] == rest;
  }

  /** A second collapse changes nothing. */
  lemma {:induction false} CollapseTwice(s: string, inRun: bool)
    ensures ReplaceRuns(ReplaceRuns(s, NOT_ALNUM, inRun), IS_HYPHEN, inRun) == ReplaceRuns(s, NOT_ALNUM, inRun)
  {
    if s != "" {
      var c, rest := s[0], s[1..];
      if IsAlnum(c) {
        CollapseTwice(rest, false);
        Unfold(c, ReplaceRuns(rest, NOT_ALNUM, false), IS_HYPHEN, inRun);
      } else {
        CollapseTwice(rest, true);
        if !inRun {
          Unfold('-', ReplaceRuns(rest, NOT_ALNUM, true), IS_HYPHEN, inRun);
          assert ReplaceRuns(s, NOT_ALNUM, inRun) == ['-'] + ReplaceRuns(rest, NOT_ALNUM, true);
        } else {
          assert ReplaceRuns(s, NOT_ALNUM, inRun) == ReplaceRuns(rest, NOT_ALNUM, true);
        }
      }
    }
  }

  /** Replacement never leaves two hyphens in a row. */
  lemma {:induction false} ReplaceIsSingle(s: string, inRun: bool)
    ensures var r := ReplaceRuns(s, NOT_ALNUM, inRun); Single(r) && (inRun && r != "" ==> r[0] != '-')
  {
    if s != "" {
      ReplaceIsSingle(s[1..], !IsAlnum(s[0]));
    }
  }

  function Edge(b: bool): string { if b then "-" else "" }

  lemma {:induction false} ReplaceCopiesRun(s: string, n: nat, inRun: bool)
    requires 0 < n <= |s| && forall i | 0 <= i < n :: IsAlnum(s[i])
    ensures ReplaceRuns(s, NOT_ALNUM, inRun) == s[..n] + ReplaceRuns(s[n..], NOT_ALNUM, false)
  {
    if n == 1 {
      assert s[..1] == [s[0]];
    } else {
      ReplaceCopiesRun(s[1..], n - 1, false);
      assert s[1..][n - 1..] == s[n..];
      assert [s[0]] + s[1..][..n - 1] == s[..n];
    }
  }

  /** What replacement yields once the leading hyphen is out of the way: the slug, and a trailing
      hyphen when the text ends outside a word. */
  lemma {:induction false} ReplaceIsSlug(s: string)
    ensures ReplaceRuns(s, NOT_ALNUM, true) == Slug(s) + Edge(EndsOutsideWord(s))
    decreases |s|
  {
    if s == "" {
    } else if IsAlnum(s[0]) {
      ReplaceIsSlug(s[RunLength(s)..]);
      ReplaceOfWord(s);
    } else {
      ReplaceIsSlug(s[1..]);
      if s[1..] != "" { assert s[1..][|s| - 2] == s[|s| - 1]; }
    }
  }

  lemma ReplaceOfWord(s: string)
    requires s != "" && IsAlnum(s[0])
    requires var rest := s[RunLength(s)..];
             ReplaceRuns(rest, NOT_ALNUM, true) == Slug(rest) + Edge(EndsOutsideWord(rest))
    ensures ReplaceRuns(s, NOT_ALNUM, true) == Slug(s) + Edge(EndsOutsideWord(s))
  {
    var n := RunLength(s);
    var word, rest := s[..n], s[n..];
    SlugOfWord(s);
    ReplaceCopiesRun(s, n, true);
    LeadingHyphen(rest);
    if rest != "" { assert rest[|rest| - 1] == s[|s| - 1]; }
    if Words(rest) == [] {
      NoWords(rest);
      assert ReplaceRuns(rest, NOT_ALNUM, true) == "";
      assert Edge(EndsOutsideWord(s)) == Edge(rest != "" && !IsAlnum(rest[0]));
    } else {
      Associate(word, "-", Slug(rest), Edge(EndsOutsideWord(rest)));
    }
  }

  lemma Associate(a: string, b: string, c: string, d: string)
    ensures a + (b + (c + d)) == a + (b + c) + d
  {
  }

  predicate EndsOutsideWord(s: string) { Words(s) != [] && s != "" && !IsAlnum(s[|s| - 1]) }

  lemma LeadingHyphen(s: string)
    ensures ReplaceRuns(s, NOT_ALNUM) == Edge(s != "" && !IsAlnum(s[0])) + ReplaceRuns(s, NOT_ALNUM, true)
  {
  }

  lemma JoinFirst(word: string, rest: seq<string>)
    ensures Join([word] + rest) == word + (if rest == [] then "" else "-" + Join(rest))
  {
    assert ([word] + rest)[1..] == rest;
    if rest == [] {
      assert word + "" == word;
    } else {
      assert word + "-" + Join(rest) == word + ("-" + Join(rest));
    }
  }

  lemma SlugOfWord(s: string)
    requires s != "" && IsAlnum(s[0])
    ensures var n := RunLength(s);
            n > 0 && Slug(s) == s[..n] + (if Words(s[n..]) == [] then "" else "-" + Slug(s[n..]))
  {
    var n := RunLength(s);
    assert Words(s) == [s[..n]] + Words(s[n..]);
    JoinFirst(s[..n], Words(s[n..]));
  }

  lemma {:induction false} SlugEnds(s: string)
    ensures Words(s) == [] <==> Slug(s) == ""
    ensures Slug(s) != "" ==> IsAlnum(Slug(s)[0]) && IsAlnum(Slug(s)[|Slug(s)| - 1])
    decreases |s|
  {
    if s == "" {
    } else if IsAlnum(s[0]) {
      SlugOfWord(s);
      SlugEnds(s[RunLength(s)..]);
    } else {
      SlugEnds(s[1..]);
    }
  }

  lemma {:induction false} NoWords(s: string)
    requires Words(s) == []
    ensures forall c | c in s :: !IsAlnum(c)
  {
    if s != "" { NoWords(s[1..]); }
  }

  lemma TrimEdges(a: bool, mid: string, b: bool)
    requires mid != "" ==> mid[0] != '-' && mid[|mid| - 1] != '-'
    ensures TrimHyphens(Edge(a) + mid + Edge(b)) == mid
  {
    var tail := mid + Edge(b);
    assert Edge(a) + mid + Edge(b) == Edge(a) + tail;
    TrimFront(a, tail);
    TrimBack(mid, b);
  }

  lemma TrimFront(a: bool, tail: string)
    ensures TrimLeft(Edge(a) + tail) == TrimLeft(tail)
  {
    if a {
      assert ("-" + tail)[1..] == tail;
    } else {
      assert "" + tail == tail;
    }
  }

  lemma TrimBack(mid: string, b: bool)
    requires mid != "" ==> mid[0] != '-' && mid[|mid| - 1] != '-'
    ensures TrimHyphens(mid + Edge(b)) == mid
  {
    var tail := mid + Edge(b);
    if mid == "" {
      assert tail == Edge(b);
      assert "-"[1..] == "";
    } else if b {
      assert tail[..|mid|] == mid;
      assert TrimRight(mid) == mid;
    } else {
      assert tail == mid;
    }
  }

  lemma SlugIsSlug(s: string)
    ensures TrimHyphens(ReplaceRuns(s, NOT_ALNUM)) == Slug(s)
    ensures Slug(s) != "" ==> IsSlug(Slug(s))
  {
    ReplaceIsSlug(s);
    LeadingHyphen(s);
    SlugEnds(s);
    TrimEdges(s != "" && !IsAlnum(s[0]), Slug(s), EndsOutsideWord(s));
    assert ReplaceRuns(s, NOT_ALNUM) == Edge(s != "" && !IsAlnum(s[0])) + Slug(s) + Edge(EndsOutsideWord(s));
    ReplaceIsSingle(s, true);
    PrefixIsSingle(ReplaceRuns(s, NOT_ALNUM, true), Slug(s));
  }

  lemma PrefixIsSingle(s: string, t: string)
    requires Single(s) && t <= s
    ensures Single(t)
  {
    assert forall i | 0 <= i < |t| :: t[i] == s[i];
  }

  lemma TailIsSingle(s: string)
    requires Single(s) && s != ""
    ensures Single(s[1..])
  {
    forall i | 0 < i < |s| - 1 ensures !(s[1..][i - 1] == '-' && s[1..][i] == '-') {
      assert !(s[i + 1 - 1] == '-' && s[i + 1] == '-');
    }
  }

  lemma BeforeHyphen(s: string, i: nat)
    requires Single(s) && 0 < i < |s| && s[i] == '-'
    ensures IsAlnum(s[i - 1])
  {
  }

  lemma CutIsSlug(s: string, n: nat)
    requires IsSlug(s) && n > 1
    ensures IsSlug(CutSlug(s, n)) && |CutSlug(s, n)| <= n && CutSlug(s, n) <= s
    ensures TrimHyphens(if |s| > n then s[..n] else s) == CutSlug(s, n)
  {
    if |s| <= n {
      TrimBack(s, false);
      assert s + Edge(false) == s;
    } else {
      PrefixIsSingle(s, s[..n]);
      if s[n - 1] == '-' {
        BeforeHyphen(s, n - 1);
        PrefixIsSingle(s, s[..n - 1]);
        TrimBack(s[..n - 1], true);
        assert s[..n - 1] + Edge(true) == s[..n];
      } else {
        TrimBack(s[..n], false);
        assert s[..n] + Edge(false) == s[..n];
      }
    }
  }

  /** The pipeline is the specification: words joined by single hyphens, cut to 100, empty if short. */
  lemma HandleMeetsSpec(folded: string)
    ensures GenerateHandle(folded) == HandleSpec(folded)
  {
    CollapseAfterReplace(folded, false, false);
    SlugIsSlug(folded);
    if Slug(folded) != "" {
      CutIsSlug(Slug(folded), MAX_HANDLE);
    }
  }

  /** How long a handle gets: a slug of 3 to 100 characters as it is, a longer one cut to 100, or to 99
      where the 100th is a hyphen. */
  lemma HandleLength(folded: string)
    ensures var s, h := Slug(folded), GenerateHandle(folded);
            && (|s| < 3 ==> h == "")
            && (3 <= |s| <= 100 ==> h == s)
            && (|s| > 100 ==> h <= s && |h| == if s[99] == '-' then 99 else 100)
  {
    HandleMeetsSpec(folded);
  }

  // ---------------------------------------------------------------- what the words are

  /** The k-th of these words stands in s at at[k]. */
  predicate StandsAt(s: string, words: seq<string>, at: seq<nat>, k: nat)
    requires k < |words| == |at|
  {
    var i, j := at[k], at[k] + |words[k]|;
    && i < j <= |s| && s[i..j] == words[k]
    && (forall n | i <= n < j :: IsAlnum(s[n]))
    && (i > 0 ==> !IsAlnum(s[i - 1])) && (j < |s| ==> !IsAlnum(s[j]))
  }

  predicate Follow(words: seq<string>, at: seq<nat>)
    requires |words| == |at|
  {
    forall k | 0 < k < |at| :: at[k - 1] + |words[k - 1]| < at[k]
  }

  predicate Cover(s: string, words: seq<string>, at: seq<nat>)
    requires |words| == |at|
  {
    forall n | 0 <= n < |s| && IsAlnum(s[n]) :: exists k :: 0 <= k < |at| && at[k] <= n < at[k] + |words[k]|
  }

  /** The words of a text are its maximal alphanumeric stretches, all of them and in order. */
  lemma {:induction false} WordsAreStretches(s: string) returns (at: seq<nat>)
    ensures AreStretches(s, Words(s), at)
    decreases |s|
  {
    if s == "" {
      at := [];
    } else if IsAlnum(s[0]) {
      var rest := WordsAreStretches(s[RunLength(s)..]);
      at := [0] + Shifted(rest, RunLength(s));
      WordInFront(s, rest);
    } else {
      var rest := WordsAreStretches(s[1..]);
      at := Shifted(rest, 1);
      ForeignInFront(s, rest);
    }
  }

  function Shifted(at: seq<nat>, n: nat): (r: seq<nat>)
    ensures |r| == |at| && forall k | 0 <= k < |at| :: r[k] == at[k] + n
  {
    seq(|at|, k requires 0 <= k < |at| => at[k] + n)
  }

  ghost predicate AreStretches(s: string, words: seq<string>, at: seq<nat>)
  {
    |at| == |words| && Follow(words, at) && Cover(s, words, at) && forall k | 0 <= k < |at| :: StandsAt(s, words, at, k)
  }

  /** Putting a foreign character back in front. */
  lemma ForeignInFront(s: string, rest: seq<nat>)
    requires s != "" && !IsAlnum(s[0]) && AreStretches(s[1..], Words(s[1..]), rest)
    ensures AreStretches(s, Words(s), Shifted(rest, 1))
  {
    var words, at := Words(s), Shifted(rest, 1);
    forall k | 0 <= k < |at| ensures StandsAt(s, words, at, k) { TailStands(s, 1, words, rest, k); }
    forall m | 0 <= m < |s| && IsAlnum(s[m]) ensures exists k :: 0 <= k < |at| && at[k] <= m < at[k] + |words[k]| {
      assert s[1..][m - 1] == s[m];
      var k :| 0 <= k < |rest| && rest[k] <= m - 1 < rest[k] + |words[k]|;
      assert at[k] <= m < at[k] + |words[k]|;
    }
  }

  /** Putting a word back in front. */
  lemma WordInFront(s: string, rest: seq<nat>)
    requires s != "" && IsAlnum(s[0]) && AreStretches(s[RunLength(s)..], Words(s[RunLength(s)..]), rest)
    ensures AreStretches(s, Words(s), [0] + Shifted(rest, RunLength(s)))
  {
    var n := RunLength(s);
    var later := Words(s[n..]);
    assert Words(s) == [s[..n]] + later;
    forall k | 0 <= k <= |rest| ensures StandsAt(s, [s[..n]] + later, [0] + Shifted(rest, n), k) {
      if k == 0 {
        FirstStands(s, later, Shifted(rest, n));
      } else {
        TailStands(s, n, later, rest, k - 1);
        LaterStands(s, s[..n], later, Shifted(rest, n), k - 1);
      }
    }
    FollowsFirst(s, n, later, rest);
    CoversFirst(s, n, later, rest);
  }

  lemma FirstStands(s: string, later: seq<string>, at: seq<nat>)
    requires s != "" && IsAlnum(s[0]) && |at| == |later|
    ensures StandsAt(s, [s[..RunLength(s)]] + later, [0] + at, 0)
  {
    var n := RunLength(s);
    assert s[0..n] == s[..n] && ([s[..n]] + later)[0] == s[..n] && ([0] + at)[0] == 0;
  }

  lemma LaterStands(s: string, first: string, later: seq<string>, at: seq<nat>, k: nat)
    requires |at| == |later| && k < |at| && StandsAt(s, later, at, k)
    ensures StandsAt(s, [first] + later, [0] + at, k + 1)
  {
    assert ([first] + later)[k + 1] == later[k] && ([0] + at)[k + 1] == at[k];
  }

  lemma FollowsFirst(s: string, n: nat, later: seq<string>, rest: seq<nat>)
    requires 0 < n <= |s| && (n < |s| ==> !IsAlnum(s[n])) && |rest| == |later| && Follow(later, rest)
    requires forall k | 0 <= k < |rest| :: StandsAt(s[n..], later, rest, k)
    ensures Follow([s[..n]] + later, [0] + Shifted(rest, n))
  {
    var words, at := [s[..n]] + later, [0] + Shifted(rest, n);
    forall k | 0 < k < |at| ensures at[k - 1] + |words[k - 1]| < at[k] {
      assert StandsAt(s[n..], later, rest, k - 1);
      if k == 1 {
        assert rest[0] < |s[n..]| && IsAlnum(s[n..][rest[0]]) && s[n..][0] == s[n];
      } else {
        assert rest[k - 2] + |later[k - 2]| < rest[k - 1];
      }
    }
  }

  lemma CoversFirst(s: string, n: nat, later: seq<string>, rest: seq<nat>)
    requires 0 < n <= |s| && |rest| == |later| && Cover(s[n..], later, rest)
    ensures Cover(s, [s[..n]] + later, [0] + Shifted(rest, n))
  {
    var words, at := [s[..n]] + later, [0] + Shifted(rest, n);
    forall m | 0 <= m < |s| && IsAlnum(s[m]) ensures exists k :: 0 <= k < |at| && at[k] <= m < at[k] + |words[k]| {
      if m < n {
        assert at[0] <= m < at[0] + |words[0]|;
      } else {
        assert s[n..][m - n] == s[m];
        var k :| 0 <= k < |rest| && rest[k] <= m - n < rest[k] + |later[k]|;
        assert at[k + 1] <= m < at[k + 1] + |words[k + 1]|;
      }
    }
  }

  lemma TailStands(s: string, n: nat, words: seq<string>, at: seq<nat>, k: nat)
    requires 0 < n <= |s| && k < |words| == |at| && StandsAt(s[n..], words, at, k)
    requires !IsAlnum(s[n - 1]) || (n < |s| ==> !IsAlnum(s[n]))
    ensures StandsAt(s, words, Shifted(at, n), k)
  {
    var tail, a, b := s[n..], at[k], at[k] + |words[k]|;
    assert tail[a..b] == s[a + n..b + n];
    forall m | a + n <= m < b + n ensures IsAlnum(s[m]) { assert tail[m - n] == s[m]; }
    if a > 0 { assert tail[a - 1] == s[a + n - 1]; }
    if b < |tail| { assert tail[b] == s[b + n]; }
    assert tail[a] == s[a + n];
  }

  /** A handle that the generator could have produced. */
  predicate IsCanonical(h: string) { IsValidHandle(h) && Single(h) }

  lemma GeneratedIsCanonical(folded: string)
    ensures GenerateHandle(folded) == "" || IsCanonical(GenerateHandle(folded))
  {
    HandleMeetsSpec(folded);
    SlugIsSlug(folded);
    if Slug(folded) != "" {
      CutIsSlug(Slug(folded), MAX_HANDLE);
    }
  }

  lemma {:induction false} SingleUnchanged(h: string, inRun: bool)
    requires Single(h) && (inRun && h != "" ==> h[0] != '-')
    ensures ReplaceRuns(h, NOT_ALNUM, inRun) == h
  {
    if h != "" {
      assert IsHandleChar(h[0]);
      if |h| > 1 { assert !(h[1 - 1] == '-' && h[1] == '-'); }
      TailIsSingle(h);
      SingleUnchanged(h[1..], !IsAlnum(h[0]));
    }
  }

  /** The generator's fixed points are exactly the canonical handles (and the empty string), so
      generating from a generated handle gives it back. */
  lemma FixedPoints(h: string)
    ensures GenerateHandle(h) == h <==> h == "" || IsCanonical(h)
    ensures GenerateHandle(GenerateHandle(h)) == GenerateHandle(h)
  {
    GeneratedIsCanonical(h);
    if IsCanonical(h) { CanonicalIsFixed(h); }
    if GenerateHandle(h) != "" { CanonicalIsFixed(GenerateHandle(h)); }
  }

  lemma CanonicalIsFixed(h: string)
    requires IsCanonical(h)
    ensures GenerateHandle(h) == h
  {
    assert ReplaceRuns(ReplaceRuns(h, NOT_HANDLE_CHAR), IS_HYPHEN) == h by {
      CollapseAfterReplace(h, false, false);
      SingleUnchanged(h, false);
    }
    TrimNothing(h);
  }

  lemma TrimNothing(h: string)
    requires h != "" && h[0] != '-' && h[|h| - 1] != '-'
    ensures TrimHyphens(h) == h
  {
  }
}
