/** The stored form of an Argon2id hash: written by HashPassword, read by VerifyPassword. The key
    function itself (RFC 9106) is a parameter about which nothing is assumed but its output length. */
module Passwords {
  import opened Wrappers
  import opened Decimals
  import opened Text
  import Base64

  const VERSION := 19
  const ARGON_TIME := 3
  const ARGON_MEMORY := 65536
  const ARGON_THREADS := 4
  const ARGON_KEY_LEN := 32

  /** password, salt, time, memory, threads, key length */
  type IdKey = (string, seq<Byte>, nat, nat, nat, nat) -> seq<Byte>

  datatype Params = Params(version: int, memory: nat, time: nat, threads: nat, salt: seq<Byte>, hash: seq<Byte>)

  // ---------------------------------------------------------------- printer

  function Cost(p: Params): string
  {
    "m=" + Decimal(p.memory) + ",t=" + Decimal(p.time) + ",p=" + Decimal(p.threads)
  }

  function Print(p: Params): string
    requires p.version >= 0
  {
    Fields("argon2id", "v=" + Decimal(p.version), Cost(p), Base64.Encode(p.salt), Base64.Encode(p.hash))
  }

  function Fields(name: string, version: string, cost: string, salt: string, hash: string): string
  {
    "" + "$" + (name + "$" + (version + "$" + (cost + "$" + (salt + "$" + hash))))
  }

  function HashPassword(password: string, salt: seq<Byte>, idKey: IdKey): Option<string>
  {
    if password == "" then None
    else
      var hash := idKey(password, salt, ARGON_TIME, ARGON_MEMORY, ARGON_THREADS, ARGON_KEY_LEN);
      Some(Print(Params(VERSION, ARGON_MEMORY, ARGON_TIME, ARGON_THREADS, salt, hash)))
  }

  // ---------------------------------------------------------------- parser

  /** fmt's scanner: a line break among the blanks is an error. */
  function SkipSpace(s: string): Option<string>
  {
    if s == "" then Some(s)
    else if s[0] == '\n' then None
    else if IsSpace(s[0]) then SkipSpace(s[1..])
    else Some(s)
  }

  function DigitRun(s: string): (n: nat)
    ensures n <= |s| && forall i | 0 <= i < n :: IsDigit(s[i])
    ensures n < |s| ==> !IsDigit(s[n])
  {
    if s != "" && IsDigit(s[0]) then 1 + DigitRun(s[1..]) else 0
  }

  /** %d into an unsigned variable: the number and the text behind it. */
  function ScanUint(s: string, limit: nat): Option<(nat, string)>
  {
    var t := SkipSpace(s);
    if t.None? || DigitRun(t.value) == 0 then None
    else
      var n := DigitRun(t.value);
      if Value(t.value[..n]) < limit then Some((Value(t.value[..n]), t.value[n..])) else None
  }

  /** %d into an int: a sign is allowed. */
  function ScanInt(s: string): Option<(int, string)>
  {
    var t := SkipSpace(s);
    if t.None? then None
    else
      var signed := t.value != "" && (t.value[0] == '-' || t.value[0] == '+');
      var u := if signed then t.value[1..] else t.value;
      var n := DigitRun(u);
      if n == 0 then None
      else
        var v: int := if signed && t.value[0] == '-' then -(Value(u[..n]) as int) else Value(u[..n]);
        if -0x8000_0000_0000_0000 <= v < 0x8000_0000_0000_0000 then Some((v, u[n..])) else None
  }

  function Expect(s: string, literal: string): Option<string>
  {
    if literal <= s then Some(s[|literal|..]) else None
  }

  function ScanVersion(s: string): Option<int>
  {
    var a := Expect(s, "v=");
    if a.None? then None
    else
      var v := ScanInt(a.value);
      if v.None? then None else Some(v.value.0)
  }

  /** literal then %d, as one step of a scan. */
  function ScanField(s: string, literal: string, limit: nat): Option<(nat, string)>
  {
    var a := Expect(s, literal);
    if a.None? then None else ScanUint(a.value, limit)
  }

  function ScanCost(s: string): Option<(nat, nat, nat)>
  {
    var m := ScanField(s, "m=", 0x1_0000_0000);
    if m.None? then None
    else
      var t := ScanField(m.value.1, ",t=", 0x1_0000_0000);
      if t.None? then None
      else
        var p := ScanField(t.value.1, ",p=", 256);
        if p.None? then None else Some((m.value.0, t.value.0, p.value.0))
  }

  function Parse(encoded: string): Option<Params>
  {
    var parts := Split(encoded, '$');
    if |parts| != 6 || parts[1] != "argon2id" then None
    else
      ParseFields(parts[2], parts[3], parts[4], parts[5])
  }

  function ParseFields(versionField: string, costField: string, saltField: string, hashField: string): Option<Params>
  {
    var version, cost := ScanVersion(versionField), ScanCost(costField);
    if version.None? || cost.None? then None
    else
      var salt, hash := Base64.Decode(saltField), Base64.Decode(hashField);
      if salt.None? || hash.None? then None
      else Some(Params(version.value, cost.value.0, cost.value.1, cost.value.2, salt.value, hash.value))
  }

  function VerifyPassword(password: string, encoded: string, idKey: IdKey): bool
  {
    password != "" && MatchesParsed(password, Parse(encoded), idKey)
  }

  function MatchesParsed(password: string, parsed: Option<Params>, idKey: IdKey): bool
  {
    parsed.Some? && Matches(password, parsed.value, idKey)
  }

  function Matches(password: string, p: Params, idKey: IdKey): bool
  {
    idKey(password, p.salt, p.time, p.memory, p.threads, |p.hash| % 0x1_0000_0000) == p.hash
  }

  // ---------------------------------------------------------------- round trip

  lemma {:induction false} DigitRunIs(digits: string, rest: string)
    requires forall c | c in digits :: IsDigit(c)
    requires rest == "" || !IsDigit(rest[0])
    ensures DigitRun(digits + rest) == |digits|
  {
    if digits == "" {
      assert digits + rest == rest;
    } else {
      assert (digits + rest)[1..] == digits[1..] + rest;
      assert digits[0] in digits;
      DigitRunIs(digits[1..], rest);
    }
  }

  /** A printed number is read back, and reading stops right behind it. */
  lemma ScanReadsDecimal(n: nat, rest: string, limit: nat)
    requires rest == "" || !IsDigit(rest[0])
    ensures ScanUint(Decimal(n) + rest, limit) == if n < limit then Some((n, rest)) else None
    ensures ScanInt(Decimal(n) + rest) == if n < 0x8000_0000_0000_0000 then Some((n, rest)) else None
  {
    DecimalReads(n);
    var d, s := Decimal(n), Decimal(n) + rest;
    DigitRunIs(d, rest);
    assert s[0] == d[0] && d[0] in d;
    assert SkipSpace(s) == Some(s);
    assert s[..|d|] == d && s[|d|..] == rest;
  }

  lemma FieldFits(literal: string, n: nat, rest: string, limit: nat)
    requires rest == "" || !IsDigit(rest[0])
    ensures ScanField(literal + Decimal(n) + rest, literal, limit) == if n < limit then Some((n, rest)) else None
  {
    var s := literal + Decimal(n) + rest;
    assert s == literal + (Decimal(n) + rest);
    assert s[|literal|..] == Decimal(n) + rest;
    ScanReadsDecimal(n, rest, limit);
  }

  predicate Storable(p: Params)
  {
    0 <= p.version < 0x8000_0000_0000_0000 &&
    p.memory < 0x1_0000_0000 && p.time < 0x1_0000_0000 && p.threads < 256
  }

  lemma CostReadsBack(p: Params)
    requires Storable(p)
    ensures ScanCost(Cost(p)) == Some((p.memory, p.time, p.threads))
  {
    var third := ",p=" + Decimal(p.threads);
    var second := ",t=" + Decimal(p.time) + third;
    assert Cost(p) == "m=" + Decimal(p.memory) + second;
    FieldFits("m=", p.memory, second, 0x1_0000_0000);
    FieldFits(",t=", p.time, third, 0x1_0000_0000);
    assert third == third + "";
    FieldFits(",p=", p.threads, "", 256);
  }

  lemma NoDollar(p: Params)
    requires Storable(p)
    ensures '$' !in "v=" + Decimal(p.version) && '$' !in Cost(p)
    ensures '$' !in Base64.Encode(p.salt) && '$' !in Base64.Encode(p.hash)
  {
    DecimalReads(p.version);
    DecimalReads(p.memory);
    DecimalReads(p.time);
    DecimalReads(p.threads);
    Base64.RoundTrip(p.salt);
    Base64.RoundTrip(p.hash);
  }

  lemma FieldsSplit(name: string, version: string, cost: string, salt: string, hash: string)
    requires '$' !in name && '$' !in version && '$' !in cost && '$' !in salt && '$' !in hash
    ensures Split(Fields(name, version, cost, salt, hash), '$') == ["", name, version, cost, salt, hash]
  {
    var t4 := salt + "$" + hash;
    var t3 := cost + "$" + t4;
    var t2 := version + "$" + t3;
    var t1 := name + "$" + t2;
    SplitNone(hash, '$');
    SplitAt(salt, '$', hash);
    SplitAt(cost, '$', t4);
    SplitAt(version, '$', t3);
    SplitAt(name, '$', t2);
    SplitAt("", '$', t1);
  }

  lemma VersionReadsBack(version: nat)
    requires version < 0x8000_0000_0000_0000
    ensures ScanVersion("v=" + Decimal(version)) == Some(version)
  {
    assert ("v=" + Decimal(version))[2..] == Decimal(version) + "";
    ScanReadsDecimal(version, "", 0);
  }

  /** Whatever can be stored is recovered in full: version, costs, salt and hash. */
  lemma PrintReadsBack(p: Params)
    requires Storable(p)
    ensures Parse(Print(p)) == Some(p)
  {
    NoDollar(p);
    FieldsSplit("argon2id", "v=" + Decimal(p.version), Cost(p), Base64.Encode(p.salt), Base64.Encode(p.hash));
    FieldsReadBack(p);
  }

  lemma FieldsReadBack(p: Params)
    requires Storable(p)
    ensures ParseFields("v=" + Decimal(p.version), Cost(p), Base64.Encode(p.salt), Base64.Encode(p.hash)) == Some(p)
  {
    VersionReadsBack(p.version);
    CostReadsBack(p);
    Base64.RoundTrip(p.salt);
    Base64.RoundTrip(p.hash);
  }

  /** Any stored hash: a password is accepted exactly when the key function gives the stored key under
      the stored salt and costs, as many bytes long as the stored key is. */
  lemma VerifyStored(p: Params, q: string, idKey: IdKey)
    requires Storable(p) && |p.hash| < 0x1_0000_0000
    ensures VerifyPassword(q, Print(p), idKey) <==>
              q != "" && idKey(q, p.salt, p.time, p.memory, p.threads, |p.hash|) == p.hash
  {
    var encoded := Stored(p);
    MatchesIs(p, q, idKey);
  }

  lemma Stored(p: Params) returns (encoded: string)
    requires Storable(p)
    ensures encoded == Print(p) && Parse(encoded) == Some(p)
  {
    encoded := Print(p);
    PrintReadsBack(p);
  }

  lemma MatchesIs(p: Params, q: string, idKey: IdKey)
    requires |p.hash| < 0x1_0000_0000
    ensures MatchesParsed(q, Some(p), idKey) <==> idKey(q, p.salt, p.time, p.memory, p.threads, |p.hash|) == p.hash
  {
  }

  /** What HashPassword writes, to the letter. */
  lemma HashedForm(password: string, salt: seq<Byte>, idKey: IdKey)
    ensures HashPassword(password, salt, idKey).None? <==> password == ""
    ensures password != "" ==>
              HashPassword(password, salt, idKey).value ==
                "$argon2id$v=19$m=65536,t=3,p=4$" + Base64.Encode(salt) + "$" +
                Base64.Encode(idKey(password, salt, 3, 65536, 4, 32))
  {
    if password != "" {
      var hash := idKey(password, salt, 3, 65536, 4, 32);
      HeaderIs(Params(19, 65536, 3, 4, salt, hash));
      FormIs(Base64.Encode(salt), Base64.Encode(hash));
    }
  }

  lemma HeaderIs(p: Params)
    requires p.version == 19 && p.memory == 65536 && p.time == 3 && p.threads == 4
    ensures "v=" + Decimal(p.version) == "v=19" && Cost(p) == "m=65536,t=3,p=4"
  {
    assert Decimal(19) == "19" && Decimal(3) == "3" && Decimal(4) == "4";
    Memory();
  }

  lemma Memory()
    ensures Decimal(65536) == "65536"
  {
    assert Decimal(65) == "65";
    assert Decimal(655) == "655";
    assert Decimal(6553) == "6553";
  }

  lemma FormIs(salt: string, hash: string)
    ensures Fields("argon2id", "v=19", "m=65536,t=3,p=4", salt, hash)
         == "$argon2id$v=19$m=65536,t=3,p=4$" + salt + "$" + hash
  {
    FieldsInOrder("argon2id", "v=19", "m=65536,t=3,p=4", salt, hash);
    Header();
  }

  lemma FieldsInOrder(name: string, version: string, cost: string, salt: string, hash: string)
    ensures Fields(name, version, cost, salt, hash)
         == "$" + name + "$" + version + "$" + cost + "$" + salt + "$" + hash
  {
    Regroup("$" + name + "$" + version + "$" + cost, salt, hash);
    Regroup("$" + name + "$" + version, cost, salt + "$" + hash);
    Regroup("$" + name, version, cost + "$" + (salt + "$" + hash));
    Regroup("", name, version + "$" + (cost + "$" + (salt + "$" + hash)));
  }

  lemma Regroup(before: string, field: string, rest: string)
    ensures before + "$" + field + "$" + rest == before + "$" + (field + "$" + rest)
  {
  }

  lemma Header()
    ensures "$" + "argon2id" + "$" + "v=19" + "$" + "m=65536,t=3,p=4" + "$" == "$argon2id$v=19$m=65536,t=3,p=4$"
  {
    assert "$" + "argon2id" + "$" == "$argon2id$";
    assert "$argon2id$" + "v=19" + "$" == "$argon2id$v=19$";
    assert "$argon2id$v=19$" + "m=65536,t=3,p=4" + "$" == "$argon2id$v=19$m=65536,t=3,p=4$";
  }

  /** What is not of that shape is read as no hash at all, and no password matches it. */
  lemma ShapelessNeverMatches(encoded: string, q: string, idKey: IdKey)
    requires var parts := Split(encoded, '$');
             || |parts| != 6 || parts[1] != "argon2id" || !("v=" <= parts[2]) || !("m=" <= parts[3])
             || (exists k :: 0 <= k < |parts[4]| && Base64.Meaning(parts[4][k]).None? && parts[4][k] !in "\r\n")
             || (exists k :: 0 <= k < |parts[5]| && Base64.Meaning(parts[5][k]).None? && parts[5][k] !in "\r\n")
    ensures !VerifyPassword(q, encoded, idKey)
  {
    var parts := Split(encoded, '$');
    if |parts| == 6 {
      if k :| 0 <= k < |parts[4]| && Base64.Meaning(parts[4][k]).None? && parts[4][k] !in "\r\n" {
        Base64.ForeignSymbol(parts[4], k);
      }
      if k :| 0 <= k < |parts[5]| && Base64.Meaning(parts[5][k]).None? && parts[5][k] !in "\r\n" {
        Base64.ForeignSymbol(parts[5], k);
      }
    }
  }

  /** Blanks in front of a number are read over, unless there is a line feed among them. */
  lemma {:induction false} SkipSpaceIs(s: string)
    ensures match SkipSpace(s)
            case Some(t) => exists n :: 0 <= n <= |s| && OnlyBlanks(s, n) && t == s[n..] && (t == "" || !IsSpace(t[0]))
            case None => exists n :: 0 <= n < |s| && OnlyBlanks(s, n) && s[n] == '\n'
  {
    if s != "" && IsSpace(s[0]) && s[0] != '\n' {
      var r := s[1..];
      SkipSpaceIs(r);
      if SkipSpace(r).Some? {
        var n :| 0 <= n <= |r| && OnlyBlanks(r, n) && SkipSpace(r).value == r[n..] &&
                 (r[n..] == "" || !IsSpace(r[n..][0]));
        BlanksBehind(s, n);
        assert s[n + 1..] == r[n..];
      } else {
        var n :| 0 <= n < |r| && OnlyBlanks(r, n) && r[n] == '\n';
        BlanksBehind(s, n);
        assert s[n + 1] == '\n';
      }
    } else {
      assert OnlyBlanks(s, 0) && s[0..] == s;
    }
  }

  /** The first n characters are white space and none is a line feed. */
  predicate OnlyBlanks(s: string, n: int) { 0 <= n <= |s| && forall k | 0 <= k < n :: IsSpace(s[k]) && s[k] != '\n' }

  lemma BlanksBehind(s: string, n: nat)
    requires s != "" && IsSpace(s[0]) && s[0] != '\n' && OnlyBlanks(s[1..], n)
    ensures OnlyBlanks(s, n + 1)
  {
    forall k | 0 <= k < n + 1 ensures IsSpace(s[k]) && s[k] != '\n' {
      if k > 0 { assert s[1..][k - 1] == s[k]; }
    }
  }

  /** A version may carry a sign and must fit 64 bits; what follows the number is not looked at. */
  lemma VersionsRead(n: nat, rest: string)
    requires rest == "" || !IsDigit(rest[0])
    ensures ScanVersion("v=" + (Decimal(n) + rest)) == if n < 0x8000_0000_0000_0000 then Some(n) else None
    ensures ScanVersion("v=" + ("+" + (Decimal(n) + rest))) == if n < 0x8000_0000_0000_0000 then Some(n) else None
    ensures ScanVersion("v=" + ("-" + (Decimal(n) + rest))) ==
              if n <= 0x8000_0000_0000_0000 then Some(-(n as int)) else None
  {
    ScanReadsDecimal(n, rest, 0);
    SignedReads(n, rest);
    VersionIs(Decimal(n) + rest);
    VersionIs("+" + (Decimal(n) + rest));
    VersionIs("-" + (Decimal(n) + rest));
  }

  lemma VersionIs(s: string)
    ensures ScanVersion("v=" + s) == if ScanInt(s).None? then None else Some(ScanInt(s).value.0)
  {
    assert ("v=" + s)[2..] == s;
  }

  lemma SignedReads(n: nat, rest: string)
    requires rest == "" || !IsDigit(rest[0])
    ensures ScanInt("+" + (Decimal(n) + rest)) == if n < 0x8000_0000_0000_0000 then Some((n, rest)) else None
    ensures ScanInt("-" + (Decimal(n) + rest)) ==
              if n <= 0x8000_0000_0000_0000 then Some((-(n as int), rest)) else None
  {
    DecimalReads(n);
    var d, s := Decimal(n), Decimal(n) + rest;
    DigitRunIs(d, rest);
    assert s[..|d|] == d && s[|d|..] == rest;
    assert ("+" + s)[1..] == s && ("-" + s)[1..] == s;
  }

  /** What stands before the first dollar sign is not looked at. */
  lemma FirstFieldIsIgnored(first: string, p: Params)
    requires '$' !in first && Storable(p)
    ensures Parse(first + Print(p)) == Some(p)
  {
    NoDollar(p);
    var version, salt, hash := "v=" + Decimal(p.version), Base64.Encode(p.salt), Base64.Encode(p.hash);
    var rest := "argon2id" + "$" + (version + "$" + (Cost(p) + "$" + (salt + "$" + hash)));
    assert first + Print(p) == first + "$" + rest;
    SplitAt(first, '$', rest);
    FieldsSplit("argon2id", version, Cost(p), salt, hash);
    SplitAt("", '$', rest);
    assert Split(rest, '$') == ["argon2id", version, Cost(p), salt, hash] by {
      assert ([""] + Split(rest, '$'))[1..] == Split(rest, '$');
    }
    FieldsReadBack(p);
  }

  /** Costs that do not fit their variables are refused. */
  lemma CostsMustFit(memory: nat, time: nat, threads: nat)
    ensures ScanCost("m=" + Decimal(memory) + ",t=" + Decimal(time) + ",p=" + Decimal(threads)).Some? <==>
              memory < 0x1_0000_0000 && time < 0x1_0000_0000 && threads < 0x100
  {
    var third := ",p=" + Decimal(threads) + "";
    var second := ",t=" + Decimal(time) + third;
    FieldFits("m=", memory, second, 0x1_0000_0000);
    FieldFits(",t=", time, third, 0x1_0000_0000);
    FieldFits(",p=", threads, "", 0x100);
    CostInParts(Decimal(memory), Decimal(time), Decimal(threads));
  }

  lemma CostInParts(m: string, t: string, p: string)
    ensures "m=" + m + ",t=" + t + ",p=" + p == "m=" + m + (",t=" + t + (",p=" + p + ""))
  {
  }

  /** q is accepted against the stored hash of p exactly when both give the same key under the salt
      and costs p was hashed with. */
  lemma VerifyAfterHash(p: string, q: string, salt: seq<Byte>, idKey: IdKey)
    requires p != ""
    requires |idKey(p, salt, 3, 65536, 4, 32)| == 32
    ensures var stored := HashPassword(p, salt, idKey);
            stored.Some? &&
            (VerifyPassword(q, stored.value, idKey) <==>
               q != "" && idKey(q, salt, 3, 65536, 4, 32) == idKey(p, salt, 3, 65536, 4, 32))
  {
    var hash := idKey(p, salt, 3, 65536, 4, 32);
    PrintReadsBack(Params(VERSION, ARGON_MEMORY, ARGON_TIME, ARGON_THREADS, salt, hash));
  }

  /** The version is scanned but never compared: any version number verifies alike. */
  lemma VersionIsNotCompared(p: Params, version: int, q: string, idKey: IdKey)
    requires Storable(p) && Storable(p.(version := version))
    ensures VerifyPassword(q, Print(p), idKey) == VerifyPassword(q, Print(p.(version := version)), idKey)
  {
    PrintReadsBack(p);
    PrintReadsBack(p.(version := version));
  }
}
