/** The connection string of internal/config/config.go, against a reader of PostgreSQL's
    keyword=value syntax. */
module Dsn {
  import opened Wrappers
  import opened Decimals

  datatype DatabaseConfig =
    DatabaseConfig(host: string, port: nat, user: string, password: string, name: string, sslMode: string)

  function ReplaceAll(s: string, c: char, with: string): string
  {
    if s == "" then "" else (if s[0] == c then with else [s[0]]) + ReplaceAll(s[1..], c, with)
  }

  function EscapePassword(password: string): string
  {
    ReplaceAll(ReplaceAll(password, '\\', "\\\\"), '\'', "\\'")
  }

  function Setting(key: string, v: string, rest: string): string { key + "=" + v + rest }

  function Dsn(c: DatabaseConfig): string
  {
    Setting("host", c.host, " " +
      Setting("port", Decimal(c.port), " " +
        Setting("user", c.user, " " +
          Setting("dbname", c.name, " " +
            Setting("sslmode", c.sslMode, PasswordPart(c))))))
  }

  function PasswordPart(c: DatabaseConfig): string
  {
    if c.password != "" then " " + Setting("password", "'" + EscapePassword(c.password) + "'", "") else ""
  }

  /** The connection string, to the letter. */
  lemma DsnIs(c: DatabaseConfig)
    ensures Dsn(c) == "host=" + c.host + " port=" + Decimal(c.port) + " user=" + c.user + " dbname=" + c.name +
                      " sslmode=" + c.sslMode +
                      (if c.password == "" then "" else " password='" + EscapeOnce(c.password) + "'")
  {
    TwoPassesAreOne(c.password);
    var last := PasswordPart(c);
    assert last == if c.password == "" then "" else " password='" + EscapeOnce(c.password) + "'";
    InOrder(c.host, Decimal(c.port), c.user, c.name, c.sslMode, last);
  }

  lemma InOrder(host: string, port: string, user: string, name: string, mode: string, last: string)
    ensures Setting("host", host, " " + Setting("port", port, " " + Setting("user", user, " " +
              Setting("dbname", name, " " + Setting("sslmode", mode, last)))))
         == "host=" + host + " port=" + port + " user=" + user + " dbname=" + name + " sslmode=" + mode + last
  {
    var s4 := Setting("sslmode", mode, last);
    var s3 := Setting("dbname", name, " " + s4);
    var s2 := Setting("user", user, " " + s3);
    var s1 := Setting("port", port, " " + s2);
    Separators();
    var t1 := "host=" + host;
    var t2 := t1 + " port=" + port;
    var t3 := t2 + " user=" + user;
    assert Setting("host", host, " " + s1) == t1 + (" " + s1);
    OneMore(t1, "port", " port=", port, " " + s2);
    OneMore(t2, "user", " user=", user, " " + s3);
    OneMore(t3, "dbname", " dbname=", name, " " + s4);
    OneMore(t3 + " dbname=" + name, "sslmode", " sslmode=", mode, last);
  }

  lemma Separators()
    ensures " " + "port" + "=" == " port=" && " " + "user" + "=" == " user="
    ensures " " + "dbname" + "=" == " dbname=" && " " + "sslmode" + "=" == " sslmode="
  {
  }

  lemma OneMore(before: string, key: string, sep: string, v: string, rest: string)
    requires sep == " " + key + "="
    ensures before + (" " + Setting(key, v, rest)) == before + sep + v + rest
  {
  }

  // ---------------------------------------------------------------- the reader

  predicate IsBlank(c: char) { c == ' ' || 9 <= c as int <= 13 }

  lemma BlanksAre(c: char)
    ensures IsBlank(c) <==> c as int in {0x09, 0x0A, 0x0B, 0x0C, 0x0D, 0x20}
  {
  }

  /** Inside single quotes: a backslash makes the next character literal, a quote ends the value.
      Gives the value and the text behind the closing quote. */
  function ReadQuoted(s: string): Option<(string, string)>
  {
    if s == "" then None
    else if s[0] == '\'' then Some(("", s[1..]))
    else if s[0] == '\\' then
      if |s| == 1 then None
      else
        var r := ReadQuoted(s[2..]);
        if r.None? then None else Some(([s[1]] + r.value.0, r.value.1))
    else
      var r := ReadQuoted(s[1..]);
      if r.None? then None else Some(([s[0]] + r.value.0, r.value.1))
  }

  /** An unquoted value runs to the next white space. */
  function ReadPlain(s: string): Option<(string, string)>
  {
    if s == "" || IsBlank(s[0]) then Some(("", s))
    else if s[0] == '\\' then
      if |s| == 1 then None
      else
        var r := ReadPlain(s[2..]);
        if r.None? then None else Some(([s[1]] + r.value.0, r.value.1))
    else
      var r := ReadPlain(s[1..]);
      if r.None? then None else Some(([s[0]] + r.value.0, r.value.1))
  }

  function SkipBlanks(s: string): (t: string)
    ensures |t| <= |s|
  {
    if s != "" && IsBlank(s[0]) then SkipBlanks(s[1..]) else s
  }

  function KeyLength(s: string): (n: nat)
    ensures n <= |s|
  {
    if s == "" || s[0] == '=' then 0 else 1 + KeyLength(s[1..])
  }

  function ReadValue(s: string): Option<(string, string)>
  {
    var t := SkipBlanks(s);
    if t != "" && t[0] == '\'' then ReadQuoted(t[1..]) else ReadPlain(t)
  }

  function ReadSettings(s: string): Option<seq<(string, string)>>
    decreases |s|
  {
    var t := SkipBlanks(s);
    if t == "" then Some([])
    else
      var n := KeyLength(t);
      if n == |t| then None
      else
        ValueShrinks(t[n + 1..]);
        var v := ReadValue(t[n + 1..]);
        if v.None? then None
        else
          var rest := ReadSettings(v.value.1);
          if rest.None? then None else Some([(t[..n], v.value.0)] + rest.value)
  }

  lemma ValueShrinks(s: string)
    ensures ReadValue(s).Some? ==> |ReadValue(s).value.1| <= |s|
  {
    QuotedShrinks(SkipBlanks(s));
    PlainShrinks(SkipBlanks(s));
    if SkipBlanks(s) != "" { QuotedShrinks(SkipBlanks(s)[1..]); }
  }

  lemma QuotedShrinks(s: string)
    ensures ReadQuoted(s).Some? ==> |ReadQuoted(s).value.1| <= |s|
  {
  }

  lemma PlainShrinks(s: string)
    ensures ReadPlain(s).Some? ==> |ReadPlain(s).value.1| <= |s|
  {
  }

  // ---------------------------------------------------------------- escaping

  function EscapeOnce(s: string): string
  {
    if s == "" then ""
    else (if s[0] == '\\' || s[0] == '\'' then ['\\', s[0]] else [s[0]]) + EscapeOnce(s[1..])
  }

  lemma {:induction false} ReplaceSplits(a: string, b: string, c: char, with: string)
    ensures ReplaceAll(a + b, c, with) == ReplaceAll(a, c, with) + ReplaceAll(b, c, with)
  {
    if a == "" {
      assert a + b == b;
    } else {
      assert (a + b)[1..] == a[1..] + b;
      ReplaceSplits(a[1..], b, c, with);
    }
  }

  /** The two passes do what one pass over backslashes and quotes would: the second never touches a
      backslash the first one added. */
  lemma {:induction false} TwoPassesAreOne(s: string)
    ensures EscapePassword(s) == EscapeOnce(s)
  {
    if s != "" {
      TwoPassesAreOne(s[1..]);
      var head := if s[0] == '\\' then "\\\\" else [s[0]];
      ReplaceSplits(head, ReplaceAll(s[1..], '\\', "\\\\"), '\'', "\\'");
      assert head[1..] == "" || head[1..] == "\\";
      assert "\\"[1..] == "";
    }
  }

  /** Every password is read back exactly, and reading stops at the closing quote. */
  lemma {:induction false} PasswordReadsBack(password: string, rest: string)
    ensures ReadQuoted(EscapePassword(password) + "'" + rest) == Some((password, rest))
  {
    TwoPassesAreOne(password);
    EscapedReadsBack(password, rest);
  }

  lemma {:induction false} EscapedReadsBack(password: string, rest: string)
    ensures ReadQuoted(EscapeOnce(password) + "'" + rest) == Some((password, rest))
  {
    var s := EscapeOnce(password) + "'" + rest;
    if password == "" {
      assert s[1..] == rest;
    } else {
      var c, tail := password[0], EscapeOnce(password[1..]) + "'" + rest;
      EscapedReadsBack(password[1..], rest);
      if c == '\\' || c == '\'' {
        assert s[2..] == tail;
      } else {
        assert s[1..] == tail;
      }
      assert [c] + password[1..] == password;
    }
  }

  // ---------------------------------------------------------------- unquoted values

  /** A value that may stand without quotes: no blank and no backslash in it, no quote in front, and
      not empty unless nothing follows. */
  predicate ReadsPlainly(v: string, last: bool)
  {
    && (forall c | c in v :: !IsBlank(c) && c != '\\')
    && (if v == "" then last else v[0] != '\'')
  }

  predicate IsMark(c: char) { IsBlank(c) || c == '\\' || c == '\'' }

  /** What may come behind a value: nothing, or a space and the next key. */
  predicate Follows(rest: string) { rest == "" || (|rest| > 1 && rest[0] == ' ' && !IsMark(rest[1])) }

  lemma {:induction false} PlainReadsBack(v: string, rest: string)
    requires forall c | c in v :: !IsBlank(c) && c != '\\'
    requires Follows(rest)
    ensures ReadPlain(v + rest) == Some((v, rest))
  {
    if v == "" {
      assert v + rest == rest;
    } else {
      assert (v + rest)[1..] == v[1..] + rest;
      assert (v + rest)[0] == v[0] && v[0] in v;
      PlainReadsBack(v[1..], rest);
      assert [v[0]] + v[1..] == v;
    }
  }

  /** How many backslashes s begins with. */
  function Backslashes(s: string): nat { if s != "" && s[0] == '\\' then 1 + Backslashes(s[1..]) else 0 }

  /** How many blanks, backslashes and quotes s begins with. */
  function Marks(s: string): nat { if s != "" && IsMark(s[0]) then 1 + Marks(s[1..]) else 0 }

  /** Reading halves a row of backslashes. */
  lemma {:induction false} PlainHalves(s: string)
    ensures ReadPlain(s).Some? ==> 2 * Backslashes(ReadPlain(s).value.0) <= Backslashes(s)
  {
    if |s| > 1 && s[0] == '\\' {
      PlainHalves(s[2..]);
      assert s[1..][1..] == s[2..];
      Consumed(s[1], s[2..]);
    }
  }

  lemma Consumed(c: char, s: string)
    ensures ReadPlain(s).Some? ==> ([c] + ReadPlain(s).value.0)[1..] == ReadPlain(s).value.0
    ensures ReadQuoted(s).Some? ==> ([c] + ReadQuoted(s).value.0)[1..] == ReadQuoted(s).value.0
  {
  }

  predicate StartsEscaped(v: string) { v != "" && (v[0] == '\\' || v[0] == '\'') }

  /** Every mark in a value costs a mark of the text, a quote or backslash in quotes costs two. */
  lemma {:induction false} QuotedCosts(s: string)
    ensures ReadQuoted(s).Some? ==>
              var v := ReadQuoted(s).value.0; Marks(v) + (if StartsEscaped(v) then 1 else 0) <= Marks(s)
  {
    if s != "" && s[0] != '\'' {
      if s[0] == '\\' {
        if |s| > 1 {
          QuotedCosts(s[2..]);
          assert s[1..][1..] == s[2..];
          Consumed(s[1], s[2..]);
        }
      } else {
        QuotedCosts(s[1..]);
        Consumed(s[0], s[1..]);
      }
    }
  }

  /** Without quotes a blank or backslash costs two. */
  lemma {:induction false} PlainCosts(s: string)
    ensures ReadPlain(s).Some? ==>
              var v := ReadPlain(s).value.0; Marks(v) + (if v != "" && IsBlank(v[0]) then 1 else 0) <= Marks(s)
  {
    if s != "" && !IsBlank(s[0]) {
      if s[0] == '\\' {
        if |s| > 1 {
          PlainCosts(s[2..]);
          assert s[1..][1..] == s[2..];
          Consumed(s[1], s[2..]);
        }
      } else {
        PlainCosts(s[1..]);
        Consumed(s[0], s[1..]);
      }
    }
  }

  lemma {:induction false} SkippingCosts(s: string)
    ensures Marks(SkipBlanks(s)) + (if s != "" && IsBlank(s[0]) then 1 else 0) <= Marks(s)
    ensures s != "" && !IsBlank(s[0]) ==> SkipBlanks(s) == s
  {
    if s != "" && IsBlank(s[0]) { SkippingCosts(s[1..]); }
  }

  /** The separator is the only mark that what follows can add. */
  lemma {:induction false} MarksBefore(v: string, rest: string)
    requires Follows(rest)
    ensures Marks(v + rest) <= Marks(v) + 1
    ensures Backslashes(v + rest) == Backslashes(v)
  {
    if v == "" {
      assert v + rest == rest;
      assert rest != "" ==> rest[1..][0] == rest[1];
    } else {
      assert (v + rest)[1..] == v[1..] + rest;
      MarksBefore(v[1..], rest);
    }
  }

  lemma {:induction false} PlainIsExact(v: string, rest: string)
    requires Follows(rest) && ReadPlain(v + rest).Some? && ReadPlain(v + rest).value.0 == v
    ensures forall c | c in v :: !IsBlank(c) && c != '\\'
  {
    if v != "" {
      var s := v + rest;
      PlainHalves(s);
      MarksBefore(v, rest);
      assert s[0] == v[0] && s[1..] == v[1..] + rest;
      assert v[0] != '\\';
      Consumed(s[0], s[1..]);
      PlainIsExact(v[1..], rest);
      assert forall c | c in v :: c == v[0] || c in v[1..];
    }
  }

  lemma ReadBackIsPlain(v: string, rest: string)
    requires Follows(rest) && ReadValue(v + rest).Some? && ReadValue(v + rest).value.0 == v
    ensures ReadsPlainly(v, rest == "")
  {
    var s := v + rest;
    var t := SkipBlanks(s);
    if v == "" {
      assert s == rest;
    } else {
      assert s[0] == v[0];
      MarksBefore(v, rest);
      SkippingCosts(s);
      if t != "" && t[0] == '\'' {
        QuotedCosts(t[1..]);
      } else {
        PlainCosts(t);
      }
      assert !IsBlank(v[0]) && v[0] != '\'';
      PlainIsExact(v, rest);
    }
  }

  /** An unquoted value is read back exactly when it may stand without quotes. */
  lemma ValueReadsBackIff(v: string, rest: string)
    requires Follows(rest)
    ensures ReadValue(v + rest).Some? && ReadValue(v + rest).value.0 == v <==> ReadsPlainly(v, rest == "")
    ensures ReadsPlainly(v, rest == "") ==> ReadValue(v + rest) == Some((v, rest))
  {
    if ReadsPlainly(v, rest == "") {
      var s := v + rest;
      if v == "" {
        assert s == "";
      } else {
        assert s[0] == v[0] && v[0] in v;
        SkippingCosts(s);
        PlainReadsBack(v, rest);
      }
    } else if ReadValue(v + rest).Some? && ReadValue(v + rest).value.0 == v {
      ReadBackIsPlain(v, rest);
    }
  }

  // ---------------------------------------------------------------- the whole string

  lemma {:induction false} KeyReadsBack(key: string, rest: string)
    requires '=' !in key
    ensures KeyLength(key + "=" + rest) == |key|
  {
    if key != "" {
      assert (key + "=" + rest)[1..] == key[1..] + "=" + rest;
      KeyReadsBack(key[1..], rest);
    }
  }

  predicate IsKey(key: string) { key != "" && '=' !in key && !IsMark(key[0]) }

  /** Reading one setting: its value, then the rest. */
  lemma SettingIs(key: string, text: string)
    requires IsKey(key)
    ensures ReadSettings(key + "=" + text)
         == var v := ReadValue(text);
            if v.None? then None
            else
              var rest := ReadSettings(v.value.1);
              if rest.None? then None else Some([(key, v.value.0)] + rest.value)
  {
    var s := key + "=" + text;
    KeyReadsBack(key, text);
    assert s[0] == key[0];
    assert s[|key| + 1..] == text && s[..|key|] == key;
  }

  /** One unquoted setting in front of others. */
  lemma SettingReadsBackIff(key: string, v: string, rest: string, read: seq<(string, string)>)
    requires IsKey(key) && Follows(rest)
    ensures ReadSettings(Setting(key, v, rest)) == Some([(key, v)] + read) <==>
              ReadsPlainly(v, rest == "") && ReadSettings(rest) == Some(read)
  {
    assert Setting(key, v, rest) == key + "=" + (v + rest);
    SettingIs(key, v + rest);
    ValueReadsBackIff(v, rest);
    assert ([(key, v)] + read)[0] == (key, v) && ([(key, v)] + read)[1..] == read;
    var r := ReadSettings(Setting(key, v, rest));
    if r.Some? && r.value != [] { assert r.value == [r.value[0]] + r.value[1..]; }
  }

  lemma LeadingBlank(s: string)
    ensures ReadSettings(" " + s) == ReadSettings(s)
  {
    assert (" " + s)[1..] == s;
  }

  lemma SettingBeforeIff(key: string, v: string, rest: string, read: seq<(string, string)>)
    requires IsKey(key) && rest != "" && !IsMark(rest[0])
    ensures ReadSettings(Setting(key, v, " " + rest)) == Some([(key, v)] + read) <==>
              ReadsPlainly(v, false) && ReadSettings(rest) == Some(read)
  {
    LeadingBlank(rest);
    SettingReadsBackIff(key, v, " " + rest, read);
  }

  lemma QuotedSettingReadsBack(key: string, password: string)
    requires IsKey(key)
    ensures ReadSettings(Setting(key, "'" + EscapePassword(password) + "'", "")) == Some([(key, password)])
  {
    var v := "'" + EscapePassword(password) + "'";
    assert Setting(key, v, "") == key + "=" + v;
    SettingIs(key, v);
    assert v[1..] == EscapePassword(password) + "'" + "";
    PasswordReadsBack(password, "");
    assert ReadValue(v) == Some((password, ""));
    assert [(key, password)] + [] == [(key, password)];
  }

  function PasswordSetting(password: string): seq<(string, string)>
  {
    if password != "" then [("password", password)] else []
  }

  lemma LastSettingIff(c: DatabaseConfig)
    ensures ReadSettings(Setting("sslmode", c.sslMode, PasswordPart(c))) ==
              Some([("sslmode", c.sslMode)] + PasswordSetting(c.password))
            <==> ReadsPlainly(c.sslMode, c.password == "")
  {
    if c.password != "" {
      var last := Setting("password", "'" + EscapePassword(c.password) + "'", "");
      QuotedSettingReadsBack("password", c.password);
      assert PasswordPart(c) == " " + last;
      SettingBeforeIff("sslmode", c.sslMode, last, PasswordSetting(c.password));
    } else {
      SettingReadsBackIff("sslmode", c.sslMode, "", []);
    }
  }

  function Settings(c: DatabaseConfig): seq<(string, string)>
  {
    [("host", c.host)] + ([("port", Decimal(c.port))] + ([("user", c.user)] + ([("dbname", c.name)]
    + ([("sslmode", c.sslMode)] + PasswordSetting(c.password)))))
  }

  lemma PortReadsPlainly(port: nat)
    ensures ReadsPlainly(Decimal(port), false)
  {
    DecimalReads(port);
    assert Decimal(port)[0] in Decimal(port);
  }

  /** The whole connection string means the configuration if and only if host, user, database name and
      SSL mode may stand without quotes. The password may be anything. */
  lemma DsnReadsBackIff(c: DatabaseConfig)
    ensures ReadSettings(Dsn(c)) == Some(Settings(c)) <==>
              ReadsPlainly(c.host, false) && ReadsPlainly(c.user, false) && ReadsPlainly(c.name, false) &&
              ReadsPlainly(c.sslMode, c.password == "")
  {
    var r4 := [("sslmode", c.sslMode)] + PasswordSetting(c.password);
    var r3 := [("dbname", c.name)] + r4;
    var r2 := [("user", c.user)] + r3;
    var s4 := Setting("sslmode", c.sslMode, PasswordPart(c));
    var s3 := Setting("dbname", c.name, " " + s4);
    var s2 := Setting("user", c.user, " " + s3);
    LastSettingIff(c);
    SettingBeforeIff("dbname", c.name, s4, r4);
    SettingBeforeIff("user", c.user, s3, r3);
    PortReadsPlainly(c.port);
    SettingBeforeIff("port", Decimal(c.port), s2, r2);
    SettingBeforeIff("host", c.host, Setting("port", Decimal(c.port), " " + s2), [("port", Decimal(c.port))] + r2);
  }
}
