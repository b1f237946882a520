/** Usernames of internal/auth/username.go. Random bytes are inputs; text arrives decomposed and
    lowercased, and may still hold characters outside ASCII. */
module Usernames {
  import opened Wrappers
  import opened Handles

  /** The ASCII characters of a text stay and all others go, wherever they stand. */
  lemma {:induction false} AsciiSplits(a: string, b: string)
    ensures KeepAscii(a + b) == KeepAscii(a) + KeepAscii(b)
  {
    if a == "" {
      assert a + b == b;
    } else {
      assert (a + b)[1..] == a[1..] + b;
      AsciiSplits(a[1..], b);
    }
  }

  lemma OneCharacter(c: char)
    ensures KeepAscii([c]) == if c as int < 128 then [c] else ""
  {
    assert [c][1..] == "";
  }

  /** Characters beyond ASCII make no difference to a username: put one in or take it out anywhere. */
  lemma ForeignCharactersGo(a: string, c: char, b: string, early: seq<Byte>)
    requires |early| == 4 && c as int >= 128
    ensures UsernameSpec(a + [c] + b, early) == UsernameSpec(a + b, early)
  {
    OneCharacter(c);
    AsciiSplits(a, [c]);
    AsciiSplits(a + [c], b);
    AsciiSplits(a, b);
    assert KeepAscii(a) + "" == KeepAscii(a);
    assert KeepAscii(a + [c] + b) == KeepAscii(a + b);
  }

  /** On text without them the username is the slug, or eight random digits when that is too short. */
  lemma AsciiUsername(text: string, early: seq<Byte>)
    requires |early| == 4 && forall i | 0 <= i < |text| :: text[i] < 128 as char
    ensures UsernameSpec(text, early) == if |Slug(text)| < 2 then Hex(early) else Slug(text)
  {
    AsciiKept(text);
    assert Hex(early)[..8] == Hex(early);
  }

  lemma AlphanumericsAre(c: char, wide: char -> bool)
    ensures IsAlphanumeric(c, wide) <==>
              || c in "abcdefghijklmnopqrstuvwxyz" || c in "0123456789" || (c as int >= 128 && wide(c))
              || ('A' <= c <= 'Z' && c + ' ' in "abcdefghijklmnopqrstuvwxyz")
  {
    LettersAre(c);
    DigitsAre(c);
    if 'A' <= c <= 'Z' { LettersAre(c + ' '); }
  }

  lemma RandomSlugIs(n: nat, bytes: seq<Byte>)
    requires n == 2 * |bytes|
    ensures RandomSlug(n, bytes) == Hex(bytes)
  {
    assert Hex(bytes)[..n] == Hex(bytes);
  }

  /** Hexadecimal, high digit first. */
  lemma {:induction false} HexDigits(bytes: seq<Byte>, k: nat)
    requires k < |bytes|
    ensures Hex(bytes)[2 * k] == "0123456789abcdef"[bytes[k] / 16]
    ensures Hex(bytes)[2 * k + 1] == "0123456789abcdef"[bytes[k] % 16]
  {
    if k == 0 {
      HexDigitIs(bytes[0] / 16);
      HexDigitIs(bytes[0] % 16);
    } else {
      HexDigits(bytes[1..], k - 1);
    }
  }

  lemma HexDigitIs(n: nat)
    requires n < 16
    ensures HexDigit(n) == "0123456789abcdef"[n]
  {
  }

  predicate IsUsername(s: string)
  {
    |s| >= 2 && IsAlnum(s[0]) && IsAlnum(s[|s| - 1]) && forall i | 0 <= i < |s| :: IsHandleChar(s[i])
  }

  function HexDigit(n: nat): (c: char)
    requires n < 16
    ensures IsAlnum(c)
  {
    if n < 10 then '0' + n as char else 'a' + (n - 10) as char
  }

  function Hex(bytes: seq<Byte>): (s: string)
    ensures |s| == 2 * |bytes|
    ensures forall i | 0 <= i < |s| :: IsAlnum(s[i])
  {
    if bytes == [] then "" else [HexDigit(bytes[0] / 16), HexDigit(bytes[0] % 16)] + Hex(bytes[1..])
  }

  /** randomSlug(n), given the (n + 1) / 2 bytes it draws. */
  function RandomSlug(n: nat, bytes: seq<Byte>): (s: string)
    requires |bytes| == (n + 1) / 2
    ensures |s| == n
    ensures forall i | 0 <= i < n :: IsAlnum(s[i])
  {
    Hex(bytes)[..n]
  }

  function KeepAscii(s: string): string
  {
    if s == "" then "" else (if s[0] < 128 as char then [s[0]] else "") + KeepAscii(s[1..])
  }

  /** unicode.IsLetter or IsDigit; beyond ASCII the library's tables decide. */
  predicate IsAlphanumeric(c: char, wide: char -> bool)
  {
    if c < 128 as char then 'a' <= c <= 'z' || 'A' <= c <= 'Z' || '0' <= c <= '9' else wide(c)
  }

  /** s[i..j] is what is left of s between its first and its last alphanumeric character; i == j when
      there is none. */
  predicate IsCore(s: string, i: nat, j: nat, wide: char -> bool)
  {
    && i <= j <= |s|
    && (forall k | 0 <= k < i :: !IsAlphanumeric(s[k], wide))
    && (forall k | j <= k < |s| :: !IsAlphanumeric(s[k], wide))
    && (i < j ==> IsAlphanumeric(s[i], wide) && IsAlphanumeric(s[j - 1], wide))
  }

  /** A text has one core only, so its length is settled. */
  lemma CoreIsUnique(s: string, i: nat, j: nat, m: nat, n: nat, wide: char -> bool)
    requires IsCore(s, i, j, wide) && IsCore(s, m, n, wide)
    ensures s[i..j] == s[m..n]
  {
    if i < j {
      assert m <= i && j <= n;
    }
  }

  /** r is what is left of s, or the drawn name exactly when that is fewer than two characters. */
  ghost predicate IsTrimmed(s: string, wide: char -> bool, drawn: string, r: string)
  {
    exists i: nat, j: nat :: IsCore(s, i, j, wide) && r == if j - i < 2 then drawn else s[i..j]
  }

  lemma NothingToTrim(s: string, wide: char -> bool, drawn: string, r: string)
    requires IsTrimmed(s, wide, drawn, r)
    requires |s| >= 2 && IsAlphanumeric(s[0], wide) && IsAlphanumeric(s[|s| - 1], wide)
    ensures r == s
  {
    var i: nat, j: nat :| IsCore(s, i, j, wide) && r == if j - i < 2 then drawn else s[i..j];
    assert IsCore(s, 0, |s|, wide);
    CoreIsUnique(s, i, j, 0, |s|, wide);
    assert |s[i..j]| == j - i;
    assert s[0..|s|] == s;
  }

  /** Draws a random name exactly when fewer than two characters are left, else keeps what is left. */
  method EnsureAlphanumericEnds(s: string, wide: char -> bool, bytes: seq<Byte>) returns (r: string)
    requires |bytes| == 4
    ensures IsTrimmed(s, wide, RandomSlug(8, bytes), r)
  {
    if |s| == 0 {
      assert IsCore(s, 0, 0, wide);
      return RandomSlug(8, bytes);
    }
    var start := 0;
    while start < |s| && !IsAlphanumeric(s[start], wide)
      invariant start <= |s|
      invariant forall k | 0 <= k < start :: !IsAlphanumeric(s[k], wide)
    {
      start := start + 1;
    }
    var end := |s|;
    while end > start && !IsAlphanumeric(s[end - 1], wide)
      invariant start <= end <= |s|
      invariant forall k | end <= k < |s| :: !IsAlphanumeric(s[k], wide)
    {
      end := end - 1;
    }
    assert IsCore(s, start, end, wide);
    if end - start < 2 {
      return RandomSlug(8, bytes);
    }
    return s[start..end];
  }

  /** The name the early passes settle on. */
  function UsernameSpec(text: string, early: seq<Byte>): string
    requires |early| == 4
  {
    var slug := Slug(KeepAscii(text));
    if |slug| < 2 then RandomSlug(8, early) else slug
  }

  /** The builder loop that drops everything outside ASCII. */
  method WriteAscii(text: string) returns (ascii: string)
    ensures ascii == KeepAscii(text)
  {
    ascii := "";
    for i := 0 to |text|
      invariant ascii + KeepAscii(text[i..]) == KeepAscii(text)
    {
      assert text[i..][1..] == text[i + 1..];
      if text[i] < 128 as char {
        assert KeepAscii(text[i..]) == [text[i]] + KeepAscii(text[i + 1..]);
        ascii := ascii + [text[i]];
      } else {
        assert KeepAscii(text[i..]) == KeepAscii(text[i + 1..]);
      }
    }
    assert text[|text|..] == "";
  }

  /** The result does not depend on the second draw: the closing pass changes nothing and its random
      fallback is unreachable. */
  method GenerateUsername(text: string, wide: char -> bool, early: seq<Byte>, late: seq<Byte>) returns (r: string)
    requires |early| == |late| == 4
    ensures r == UsernameSpec(text, early)
    ensures IsUsername(r)
  {
    var ascii := WriteAscii(text);
    var replaced := ReplaceRuns(ascii, NOT_ALNUM);
    var collapsed := ReplaceRuns(replaced, IS_HYPHEN);
    var slug := TrimHyphens(collapsed);
    assert slug == Slug(ascii) by {
      CollapseIsIdentity(ascii);
      SlugIsSlug(ascii);
    }
    if |slug| < 2 {
      slug := RandomSlug(8, early);
    }
    assert IsUsername(slug) by {
      SlugIsSlug(ascii);
    }
    r := EnsureAlphanumericEnds(slug, wide, late);
    NothingToTrim(slug, wide, RandomSlug(8, late), r);
  }

  lemma {:induction false} AsciiKept(s: string)
    requires forall i | 0 <= i < |s| :: s[i] < 128 as char
    ensures KeepAscii(s) == s
  {
    if s != "" { AsciiKept(s[1..]); }
  }

  /** The collapse pass of GenerateUsername is the identity, because replacement never leaves two
      hyphens in a row. */
  lemma CollapseIsIdentity(text: string)
    ensures ReplaceRuns(ReplaceRuns(text, NOT_ALNUM), IS_HYPHEN) == ReplaceRuns(text, NOT_ALNUM)
    ensures Single(ReplaceRuns(text, NOT_ALNUM))
  {
    CollapseTwice(text, false);
    ReplaceIsSingle(text, false);
  }

  /** On ASCII text whose slug has 3 to 100 characters the username is the group handle. */
  lemma AgreesWithHandle(text: string, early: seq<Byte>)
    requires |early| == 4
    requires forall i | 0 <= i < |text| :: text[i] < 128 as char
    requires 3 <= |Slug(text)| <= 100
    ensures UsernameSpec(text, early) == GenerateHandle(text)
  {
    AsciiKept(text);
    HandleMeetsSpec(text);
  }

  /** base, then 99 names with four random characters appended, then a name nobody checks. */
  method MakeUsernameUnique(base: string, taken: set<string>, draws: seq<seq<Byte>>, last: seq<Byte>)
    returns (r: string)
    requires |draws| == 99 && (forall i | 0 <= i < 99 :: |draws[i]| == 2) && |last| == 6
    ensures base !in taken ==> r == base
    ensures r in taken ==>
              base in taken && r == RandomSlug(12, last) &&
              forall i | 0 <= i < 99 :: base + RandomSlug(4, draws[i]) in taken
    ensures base in taken && r != RandomSlug(12, last) ==>
              exists i | 0 <= i < 99 ::
                r == base + RandomSlug(4, draws[i]) && forall j | 0 <= j < i :: base + RandomSlug(4, draws[j]) in taken
    ensures base in taken && (exists i | 0 <= i < 99 :: base + RandomSlug(4, draws[i]) !in taken) ==>
              r !in taken && exists i | 0 <= i < 99 :: r == base + RandomSlug(4, draws[i])
    ensures IsUsername(base) ==> IsUsername(r)
  {
    if base !in taken {
      return base;
    }
    for i := 1 to 100
      invariant forall j | 0 <= j < i - 1 :: base + RandomSlug(4, draws[j]) in taken
    {
      var candidate := base + RandomSlug(4, draws[i - 1]);
      if candidate !in taken {
        return candidate;
      }
    }
    return RandomSlug(12, last);
  }
}
