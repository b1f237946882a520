/** The suffix search of GenerateUniqueHandle. The existence callback is membership in a set that
    does not change during one call. */
module UniqueHandles {
  import opened Decimals
  import opened Handles

  const MAX_SUFFIX := 1000

  /** The i-th suffixed candidate, its base shortened when the whole would pass 100 characters. */
  function Candidate(base: string, i: nat): string
  {
    var suffix := "-" + Decimal(i);
    if |base| + |suffix| <= MAX_HANDLE then base + suffix
    else base[..Room(base, i)] + suffix
  }

  /** maxBase, or nothing when the suffix alone is too long. */
  function Room(base: string, i: nat): (n: nat)
    ensures n <= |base|
  {
    var room := MAX_HANDLE - 1 - |Decimal(i)|;
    if 0 <= room <= |base| then room else 0
  }

  /** The least free suffix from i on. */
  function Search(base: string, taken: set<string>, i: nat): string
    decreases MAX_SUFFIX + 1 - i
  {
    if i > MAX_SUFFIX then ""
    else if Candidate(base, i) !in taken then Candidate(base, i)
    else Search(base, taken, i + 1)
  }

  function UniqueHandle(folded: string, taken: set<string>): string
  {
    var base := GenerateHandle(folded);
    if base == "" || base !in taken then base else Search(base, taken, 1)
  }

  lemma SuffixFits(i: nat)
    requires i <= MAX_SUFFIX
    ensures 1 <= |Decimal(i)| <= 4
  {
    DecimalReads(i);
    assert Pow10(4) == 10000 by { assert Pow10(2) == 100; }
    DecimalLength(i, 10000, 4);
  }

  /** Room is exactly the space the suffix leaves, and never as little as the three characters at
      which the Go code gives up. */
  lemma RoomIsAmple(base: string, i: nat)
    requires i <= MAX_SUFFIX && |base| + 1 + |Decimal(i)| > MAX_HANDLE && |base| <= MAX_HANDLE
    ensures Room(base, i) == MAX_HANDLE - 1 - |Decimal(i)| >= 95
  {
    SuffixFits(i);
  }

  /** The search as the Go code runs it, early exit included: that exit is never taken. */
  method GenerateUniqueHandle(folded: string, taken: set<string>) returns (handle: string)
    ensures handle == UniqueHandle(folded, taken)
  {
    var base := GenerateHandle(folded);
    GeneratedIsCanonical(folded);
    if base == "" {
      return "";
    }
    if base !in taken {
      return base;
    }
    for i := 1 to MAX_SUFFIX + 1
      invariant Search(base, taken, 1) == Search(base, taken, i)
    {
      var digits := Itoa(i);
      var candidate := base + "-" + digits;
      if |candidate| > MAX_HANDLE {
        var maxBase := MAX_HANDLE - |"-"| - |digits|;
        RoomIsAmple(base, i);
        if maxBase < MIN_HANDLE {
          assert false;
        } else {
          candidate := base[..maxBase] + "-" + digits;
        }
      }
      CandidateShape(base, i, candidate);
      if candidate !in taken {
        return candidate;
      }
    }
    return "";
  }

  /** A candidate is the base, a hyphen and the number, the base cut only to keep within 100 characters. */
  lemma CandidateIs(base: string, i: nat)
    requires |base| <= 100 && i <= 1000
    ensures var c, suffix := Candidate(base, i), "-" + Decimal(i);
            if |base| + |suffix| <= 100 then c == base + suffix
            else |c| == 100 && c[100 - |suffix|..] == suffix && c[..100 - |suffix|] <= base
  {
    SuffixFits(i);
    var c, suffix := Candidate(base, i), "-" + Decimal(i);
    if |base| + |suffix| > 100 {
      RoomIsAmple(base, i);
      assert c == base[..100 - |suffix|] + suffix;
    }
  }

  lemma CandidateShape(base: string, i: nat, candidate: string)
    requires |base| <= MAX_HANDLE && i <= MAX_SUFFIX
    requires candidate == if |base| + 1 + |Decimal(i)| > MAX_HANDLE then base[..Room(base, i)] + "-" + Decimal(i)
                          else base + "-" + Decimal(i)
    ensures candidate == Candidate(base, i)
  {
    assert base + "-" + Decimal(i) == base + ("-" + Decimal(i));
    assert base[..Room(base, i)] + "-" + Decimal(i) == base[..Room(base, i)] + ("-" + Decimal(i));
  }

  /** Every candidate has the handle format, also when the base was cut in front of a hyphen. */
  lemma CandidateIsValid(base: string, i: nat)
    requires IsValidHandle(base) && i <= MAX_SUFFIX
    ensures IsValidHandle(Candidate(base, i))
  {
    SuffixFits(i);
    DecimalReads(i);
    var c, d := Candidate(base, i), Decimal(i);
    var n := |c| - |d|;
    assert c[n..] == d;
    forall k | 0 <= k < |c| ensures IsHandleChar(c[k]) {
      if k >= n {
        assert c[k] == d[k - n] && d[k - n] in d;
      }
    }
    assert c[|c| - 1] == d[|d| - 1] && d[|d| - 1] in d;
  }

  /** Text after the last hyphen. */
  function AfterLastHyphen(s: string): string
  {
    if s == "" || s[|s| - 1] == '-' then "" else AfterLastHyphen(s[..|s| - 1]) + [s[|s| - 1]]
  }

  lemma {:induction false} AfterHyphen(prefix: string, digits: string)
    requires forall c | c in digits :: IsDigit(c)
    ensures AfterLastHyphen(prefix + "-" + digits) == digits
  {
    var s := prefix + "-" + digits;
    if digits != "" {
      var front, last := digits[..|digits| - 1], digits[|digits| - 1];
      AfterHyphen(prefix, front);
      assert s[..|s| - 1] == prefix + "-" + front;
      assert s[|s| - 1] == last && last in digits;
    }
  }

  /** A candidate tells its suffix whatever its base was cut to, so the candidates are distinct. */
  lemma CandidatesDiffer(base: string, i: nat, j: nat)
    requires Candidate(base, i) == Candidate(base, j)
    ensures i == j
  {
    CandidateTellsSuffix(base, i);
    CandidateTellsSuffix(base, j);
    DecimalInjective(i, j);
  }

  lemma CandidateTellsSuffix(base: string, i: nat)
    ensures AfterLastHyphen(Candidate(base, i)) == Decimal(i)
  {
    DecimalReads(i);
    var front := if |base| + 1 + |Decimal(i)| <= MAX_HANDLE then base else base[..Room(base, i)];
    assert Candidate(base, i) == front + "-" + Decimal(i);
    AfterHyphen(front, Decimal(i));
  }

  function Candidates(base: string, n: nat): set<string> { set i | 1 <= i <= n :: Candidate(base, i) }

  lemma {:induction false} CandidateCount(base: string, n: nat)
    ensures |Candidates(base, n)| == n
  {
    if n > 0 {
      CandidateCount(base, n - 1);
      assert Candidates(base, n) == Candidates(base, n - 1) + {Candidate(base, n)};
      if Candidate(base, n) in Candidates(base, n - 1) {
        var i :| 1 <= i <= n - 1 && Candidate(base, i) == Candidate(base, n);
        CandidatesDiffer(base, i, n);
      }
    } else {
      assert Candidates(base, 0) == {};
    }
  }

  lemma CandidateIsNotEmpty(base: string, i: nat)
    ensures Candidate(base, i) != ""
  {
  }

  lemma {:induction false} SearchFails(base: string, taken: set<string>, i: nat)
    requires i <= MAX_SUFFIX + 1
    ensures Search(base, taken, i) == "" <==> forall j | i <= j <= MAX_SUFFIX :: Candidate(base, j) in taken
    ensures Search(base, taken, i) !in taken || Search(base, taken, i) == ""
    decreases MAX_SUFFIX + 1 - i
  {
    if i <= MAX_SUFFIX {
      CandidateIsNotEmpty(base, i);
      SearchFails(base, taken, i + 1);
      if Candidate(base, i) in taken {
        assert Search(base, taken, i) == Search(base, taken, i + 1);
        forall j | i <= j <= MAX_SUFFIX && Search(base, taken, i) == "" ensures Candidate(base, j) in taken {}
      }
    }
  }

  /** The base first, then the least free suffix; nothing exactly when base and all 1000 are taken. */
  lemma UniqueHandleMeaning(folded: string, taken: set<string>)
    ensures var base, h := GenerateHandle(folded), UniqueHandle(folded, taken);
            && (h == "" <==>
                  base == "" || (base in taken && forall i | 1 <= i <= 1000 :: Candidate(base, i) in taken))
            && (h != "" ==> IsValidHandle(h) && h !in taken)
            && (h != "" && h != base ==>
                  base in taken &&
                  exists i | 1 <= i <= 1000 ::
                    h == Candidate(base, i) && forall j | 1 <= j < i :: Candidate(base, j) in taken)
  {
    GeneratedIsCanonical(folded);
    var base := GenerateHandle(folded);
    if base != "" && base in taken {
      SearchFails(base, taken, 1);
      if Search(base, taken, 1) != "" {
        var i := SearchIsLeast(base, taken, 1);
        CandidateIsValid(base, i);
      }
    }
  }

  lemma {:induction false} SearchIsLeast(base: string, taken: set<string>, i: nat) returns (k: nat)
    requires 1 <= i && Search(base, taken, i) != ""
    ensures i <= k <= MAX_SUFFIX && Search(base, taken, i) == Candidate(base, k)
    ensures forall j | i <= j < k :: Candidate(base, j) in taken
    decreases MAX_SUFFIX + 1 - i
  {
    if Candidate(base, i) !in taken { return i; }
    k := SearchIsLeast(base, taken, i + 1);
  }

  /** Completeness: with fewer than 1000 handles taken a usable name always gets a handle. */
  lemma SearchIsComplete(folded: string, taken: set<string>)
    requires GenerateHandle(folded) != "" && |taken| < 1000
    ensures UniqueHandle(folded, taken) != ""
  {
    GeneratedIsCanonical(folded);
    var base := GenerateHandle(folded);
    if base in taken && Search(base, taken, 1) == "" {
      SearchFails(base, taken, 1);
      CandidateCount(base, MAX_SUFFIX);
      assert Candidates(base, MAX_SUFFIX) <= taken;
      SubsetCount(Candidates(base, MAX_SUFFIX), taken);
    }
  }

  lemma SubsetCount(a: set<string>, b: set<string>)
    requires a <= b
    ensures |a| <= |b|
  {
    assert b == a + (b - a);
  }

  /** The bound cannot be raised: a 100-character base ending in "-1" is its own first candidate, so
      1000 taken handles can leave nothing. */
  lemma BoundIsSharp() returns (folded: string, taken: set<string>)
    ensures GenerateHandle(folded) != "" && |taken| == 1000 && UniqueHandle(folded, taken) == ""
  {
    var stem := seq(98, _ => 'a');
    folded := stem + "-1";
    assert IsCanonical(folded);
    CanonicalIsFixed(folded);
    taken := Candidates(folded, MAX_SUFFIX);
    CandidateCount(folded, MAX_SUFFIX);
    assert Decimal(1) == "1";
    assert Room(folded, 1) == 98;
    assert folded[..98] == stem;
    assert Candidate(folded, 1) == folded;
    SearchFails(folded, taken, 1);
  }
}
