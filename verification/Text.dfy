/** Library text helpers that the core relies on. */
module Text {

  /** White space as Go's unicode.IsSpace and fmt's scanner see it. */
  predicate IsSpace(c: char)
  {
    var n := c as int;
    9 <= n <= 13 || n == 32 || n == 0x85 || n == 0xA0 || n == 0x1680 || 0x2000 <= n <= 0x200A ||
    n == 0x2028 || n == 0x2029 || n == 0x202F || n == 0x205F || n == 0x3000
  }

  function TrimSpace(s: string): string
  {
    if s != "" && IsSpace(s[0]) then TrimSpace(s[1..])
    else if s != "" && IsSpace(s[|s| - 1]) then TrimSpace(s[..|s| - 1])
    else s
  }

  /** The 25 characters that Unicode counts as white space. */
  lemma SpacesAre(c: char)
    ensures IsSpace(c) <==>
              c as int in {0x09, 0x0A, 0x0B, 0x0C, 0x0D, 0x20, 0x85, 0xA0, 0x1680, 0x2000, 0x2001, 0x2002, 0x2003,
                           0x2004, 0x2005, 0x2006, 0x2007, 0x2008, 0x2009, 0x200A, 0x2028, 0x2029, 0x202F, 0x205F,
                           0x3000}
  {
  }

  /** s[i..j] has nothing but white space around it and none at its own ends. */
  predicate IsMiddle(s: string, i: nat, j: nat)
  {
    && i <= j <= |s|
    && (forall k | 0 <= k < i :: IsSpace(s[k])) && (forall k | j <= k < |s| :: IsSpace(s[k]))
    && (i < j ==> !IsSpace(s[i]) && !IsSpace(s[j - 1]))
  }

  ghost predicate IsTrimOf(s: string, t: string)
  {
    exists i: nat, j: nat :: IsMiddle(s, i, j) && t == s[i..j]
  }

  /** Every text has exactly one such middle, and TrimSpace finds it. */
  lemma TrimSpaceIs(s: string, t: string)
    ensures TrimSpace(s) == t <==> IsTrimOf(s, t)
  {
    var i, j := TrimSpaceTrims(s);
    if IsTrimOf(s, t) {
      var m: nat, n: nat :| IsMiddle(s, m, n) && t == s[m..n];
      MiddleIsUnique(s, i, j, m, n);
    }
  }

  lemma {:induction false} TrimSpaceTrims(s: string) returns (i: nat, j: nat)
    ensures IsMiddle(s, i, j) && TrimSpace(s) == s[i..j]
    decreases |s|
  {
    if s != "" && IsSpace(s[0]) {
      i, j := TrimSpaceTrims(s[1..]);
      assert s[1..][i..j] == s[i + 1..j + 1];
      assert forall k | 1 <= k < |s| :: s[1..][k - 1] == s[k];
      i, j := i + 1, j + 1;
    } else if s != "" && IsSpace(s[|s| - 1]) {
      i, j := TrimSpaceTrims(s[..|s| - 1]);
      assert s[..|s| - 1][i..j] == s[i..j];
    } else {
      i, j := 0, |s|;
      assert s[0..|s|] == s;
    }
  }

  lemma MiddleIsUnique(s: string, i: nat, j: nat, m: nat, n: nat)
    requires IsMiddle(s, i, j) && IsMiddle(s, m, n)
    ensures s[i..j] == s[m..n]
  {
    if i < j {
      assert m <= i && j <= n;
    }
  }

  /** strings.Split on a one-character separator. */
  function Split(s: string, sep: char): (parts: seq<string>)
    ensures parts != []
  {
    if s == "" then [""]
    else
      var rest := Split(s[1..], sep);
      if s[0] == sep then [""] + rest else [[s[0]] + rest[0]] + rest[1..]
  }

  lemma {:induction false} SplitAt(part: string, sep: char, rest: string)
    requires sep !in part
    ensures Split(part + [sep] + rest, sep) == [part] + Split(rest, sep)
  {
    var s := part + [sep] + rest;
    if part == "" {
      assert s[1..] == rest;
    } else {
      assert s[1..] == part[1..] + [sep] + rest;
      SplitAt(part[1..], sep, rest);
      assert [part[0]] + part[1..] == part;
    }
  }

  lemma {:induction false} SplitNone(part: string, sep: char)
    requires sep !in part
    ensures Split(part, sep) == [part]
  {
    if part != "" {
      SplitNone(part[1..], sep);
      assert [part[0]] + part[1..] == part;
    }
  }
}
