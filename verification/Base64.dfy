/** Unpadded base64 (sections 3.2 and 4 of RFC 4648), decoded the way Go's RawStdEncoding does:
    line breaks are skipped and left-over bits are not inspected. */
module Base64 {
  import opened Wrappers

  type Sextet = n: int | 0 <= n < 64

  function Symbol(n: Sextet): char
  {
    if n < 26 then 'A' + n as char
    else if n < 52 then 'a' + (n - 26) as char
    else if n < 62 then '0' + (n - 52) as char
    else if n == 62 then '+' else '/'
  }

  function Meaning(c: char): Option<Sextet>
  {
    if 'A' <= c <= 'Z' then Some(c as int - 'A' as int)
    else if 'a' <= c <= 'z' then Some(c as int - 'a' as int + 26)
    else if '0' <= c <= '9' then Some(c as int - '0' as int + 52)
    else if c == '+' then Some(62)
    else if c == '/' then Some(63)
    else None
  }

  /** Six bits at a time, the last group filled up with zero bits. */
  function Groups(b: seq<Byte>): seq<Sextet>
  {
    if |b| == 0 then []
    else if |b| == 1 then [b[0] / 4, b[0] % 4 * 16]
    else if |b| == 2 then [b[0] / 4, b[0] % 4 * 16 + b[1] / 16, b[1] % 16 * 4]
    else [b[0] / 4, b[0] % 4 * 16 + b[1] / 16, b[1] % 16 * 4 + b[2] / 64, b[2] % 64] + Groups(b[3..])
  }

  function Symbols(q: seq<Sextet>): string
  {
    if q == [] then "" else [Symbol(q[0])] + Symbols(q[1..])
  }

  function Encode(b: seq<Byte>): string { Symbols(Groups(b)) }

  function SkipLineBreaks(s: string): string
  {
    if s == "" then ""
    else (if s[0] == '\r' || s[0] == '\n' then "" else [s[0]]) + SkipLineBreaks(s[1..])
  }

  function Sextets(s: string): Option<seq<Sextet>>
  {
    if s == "" then Some([])
    else
      var rest := Sextets(s[1..]);
      if Meaning(s[0]).None? || rest.None? then None else Some([Meaning(s[0]).value] + rest.value)
  }

  function Octets(q: seq<Sextet>): Option<seq<Byte>>
  {
    if |q| == 0 then Some([])
    else if |q| == 1 then None
    else
      var first := q[0] as int * 4 + q[1] as int / 16;
      if |q| == 2 then Some([first])
      else
        var second := q[1] as int % 16 * 16 + q[2] as int / 4;
        if |q| == 3 then Some([first, second])
        else
          var third := q[2] as int % 4 * 64 + q[3] as int;
          var rest := Octets(q[4..]);
          if rest.None? then None else Some([first, second, third] + rest.value)
  }

  function Decode(s: string): Option<seq<Byte>>
  {
    var q := Sextets(SkipLineBreaks(s));
    if q.None? then None else Octets(q.value)
  }

  /** The alphabet of RFC 4648, section 4. */
  lemma AlphabetIs(n: Sextet)
    ensures n < 26 ==> Symbol(n) == "ABCDEFGHIJKLMNOPQRSTUVWXYZ"[n]
    ensures 26 <= n < 52 ==> Symbol(n) == "abcdefghijklmnopqrstuvwxyz"[n - 26]
    ensures 52 <= n ==> Symbol(n) == "0123456789+/"[n - 52]
  {
  }

  /** Three octets and their four sextets are the same 24 bits, high bits first. */
  lemma GroupIsBits(b: seq<Byte>)
    requires |b| >= 3
    ensures |Groups(b)| >= 4 && Groups(b)[4..] == Groups(b[3..])
    ensures var q := Groups(b);
            b[0] as int * 0x1_0000 + b[1] as int * 0x100 + b[2] as int
            == q[0] as int * 0x4_0000 + q[1] as int * 0x1000 + q[2] as int * 0x40 + q[3] as int
  {
    var q := Groups(b);
    assert q[0] == b[0] / 4 && q[1] == b[0] % 4 * 16 + b[1] / 16;
    assert q[2] == b[1] % 16 * 4 + b[2] / 64 && q[3] == b[2] % 64;
  }

  /** Encoding goes group by group; a last group of one or two octets takes two or three symbols. */
  lemma {:induction false} EncodedLength(b: seq<Byte>)
    ensures |Encode(b)| == (|b| * 4 + 2) / 3
  {
    SymbolCount(Groups(b));
    if |b| >= 3 {
      EncodedLength(b[3..]);
      SymbolCount(Groups(b[3..]));
    }
  }

  lemma {:induction false} SymbolCount(q: seq<Sextet>)
    ensures |Symbols(q)| == |q|
  {
    if q != [] { SymbolCount(q[1..]); }
  }

  /** A character outside the alphabet, line breaks apart, makes the text unreadable. */
  lemma {:induction false} ForeignSymbol(s: string, k: nat)
    requires k < |s| && Meaning(s[k]).None? && s[k] != '\r' && s[k] != '\n'
    ensures Decode(s).None?
  {
    ForeignSextet(s, k);
  }

  lemma {:induction false} ForeignSextet(s: string, k: nat)
    requires k < |s| && Meaning(s[k]).None? && s[k] != '\r' && s[k] != '\n'
    ensures Sextets(SkipLineBreaks(s)).None?
  {
    var rest := SkipLineBreaks(s[1..]);
    if k > 0 { ForeignSextet(s[1..], k - 1); }
    if s[0] == '\r' || s[0] == '\n' {
      assert SkipLineBreaks(s) == "" + rest == rest;
    } else {
      assert SkipLineBreaks(s) == [s[0]] + rest && ([s[0]] + rest)[1..] == rest;
    }
  }

  /** Line breaks are read over wherever they stand. */
  lemma LineBreaksAreSkipped(a: string, c: char, b: string)
    requires c == '\r' || c == '\n'
    ensures Decode(a + [c] + b) == Decode(a + b)
  {
    assert SkipLineBreaks([c]) == "" by { assert [c][1..] == ""; }
    SkippingSplits(a, [c]);
    SkippingSplits(a + [c], b);
    SkippingSplits(a, b);
    assert SkipLineBreaks(a) + "" == SkipLineBreaks(a);
    assert SkipLineBreaks(a + [c] + b) == SkipLineBreaks(a + b);
  }

  lemma {:induction false} SkippingSplits(a: string, b: string)
    ensures SkipLineBreaks(a + b) == SkipLineBreaks(a) + SkipLineBreaks(b)
  {
    if a == "" {
      assert a + b == b;
    } else {
      assert (a + b)[1..] == a[1..] + b;
      SkippingSplits(a[1..], b);
    }
  }

  /** A single symbol left over is no octet, two or three are one or two whatever their last bits. */
  lemma {:induction false} LeftOvers(q: seq<Sextet>)
    ensures Octets(q).None? <==> |q| % 4 == 1
    ensures |q| == 2 ==> Octets(q) == Some([q[0] as int * 4 + q[1] as int / 16])
    ensures |q| == 3 ==>
              Octets(q) == Some([q[0] as int * 4 + q[1] as int / 16, q[1] as int % 16 * 16 + q[2] as int / 4])
  {
    if |q| > 3 { LeftOvers(q[4..]); }
  }

  /** Two of the test vectors of RFC 4648, section 10, without their padding. */
  lemma Vectors()
    ensures Encode([0x66]) == "Zg" && Encode([0x66, 0x6F]) == "Zm8" && Encode([0x66, 0x6F, 0x6F]) == "Zm9v"
  {
    assert Groups([0x66]) == [25, 32] && Groups([0x66, 0x6F]) == [25, 38, 60];
    assert Groups([0x66, 0x6F, 0x6F]) == [25, 38, 61, 47] + Groups([]);
    SymbolsOf2(25, 32);
    SymbolsOf3(25, 38, 60);
    SymbolsOf4(25, 38, 61, 47);
  }

  lemma SymbolsOf2(a: Sextet, b: Sextet)
    ensures Symbols([a, b]) == [Symbol(a), Symbol(b)]
  {
    assert [a, b][1..] == [b] && [b][1..] == [];
    assert Symbols([b]) == [Symbol(b)];
  }

  lemma SymbolsOf3(a: Sextet, b: Sextet, c: Sextet)
    ensures Symbols([a, b, c]) == [Symbol(a), Symbol(b), Symbol(c)]
  {
    assert [a, b, c][1..] == [b, c];
    SymbolsOf2(b, c);
  }

  lemma SymbolsOf4(a: Sextet, b: Sextet, c: Sextet, d: Sextet)
    ensures Symbols([a, b, c, d]) == [Symbol(a), Symbol(b), Symbol(c), Symbol(d)]
  {
    assert [a, b, c, d][1..] == [b, c, d];
    SymbolsOf3(b, c, d);
  }

  lemma BitsReadBack(x: Byte, y: Byte, z: Byte)
    ensures x / 4 * 4 + (x % 4 * 16 + y / 16) / 16 == x
    ensures (x % 4 * 16 + y / 16) % 16 * 16 + (y % 16 * 4 + z / 64) / 4 == y
    ensures (y % 16 * 4 + z / 64) % 4 * 64 + z % 64 == z
  {
  }

  lemma {:induction false} GroupsReadBack(b: seq<Byte>)
    ensures Octets(Groups(b)) == Some(b)
  {
    if |b| >= 3 {
      GroupsReadBack(b[3..]);
      var q := Groups(b);
      assert q[4..] == Groups(b[3..]);
      assert q[0] == b[0] / 4 && q[1] == b[0] % 4 * 16 + b[1] / 16;
      assert q[2] == b[1] % 16 * 4 + b[2] / 64 && q[3] == b[2] % 64;
      BitsReadBack(b[0], b[1], b[2]);
      assert Octets(q) == Some([b[0], b[1], b[2]] + b[3..]);
      assert [b[0], b[1], b[2]] + b[3..] == b;
    } else if |b| == 2 {
      BitsReadBack(b[0], b[1], 0);
      assert [b[0], b[1]] == b;
    } else if |b| == 1 {
      assert [b[0]] == b;
    }
  }

  lemma SymbolReadsBack(n: Sextet)
    ensures Meaning(Symbol(n)) == Some(n)
  {
  }

  lemma {:induction false} SymbolsReadBack(q: seq<Sextet>)
    ensures Sextets(SkipLineBreaks(Symbols(q))) == Some(q)
    ensures forall c | c in Symbols(q) :: Meaning(c).Some?
  {
    if q != [] {
      SymbolsReadBack(q[1..]);
      var s := Symbols(q);
      assert s[1..] == Symbols(q[1..]);
      SymbolReadsBack(q[0]);
      var t := SkipLineBreaks(s);
      assert t == [Symbol(q[0])] + SkipLineBreaks(s[1..]);
      assert t[1..] == SkipLineBreaks(s[1..]);
      assert [q[0]] + q[1..] == q;
    }
  }

  /** Decoding inverts encoding for all bytes, and the encoding never contains the '$' that separates
      the fields of a stored hash. */
  lemma RoundTrip(b: seq<Byte>)
    ensures Decode(Encode(b)) == Some(b)
    ensures '$' !in Encode(b)
  {
    GroupsReadBack(b);
    SymbolsReadBack(Groups(b));
    assert Meaning('$') == None;
  }
}
