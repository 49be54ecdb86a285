/** Key-value connection strings (pkg/session/profile.go): the printer that quotes each value, and the
    splitter and reader that take them apart again. */
module DsnText {
  import opened AsciiBytes
  import opened Common

  // ---------------------------------------------------------------------------------------------
  // Quoting

  /** strings.ReplaceAll for a non-empty pattern: from the left, without overlaps. */
  function ReplaceAll(s: string, from: string, to: string): string
    requires from != ""
  {
    if s == "" then ""
    else if from <= s then to + ReplaceAll(s[|from|..], from, to)
    else [s[0]] + ReplaceAll(s[1..], from, to)
  }

  function Escape(v: string): string {
    ReplaceAll(ReplaceAll(v, "\\", "\\\\"), "'", "\\'")
  }

  function Quote(v: string): string { "'" + Escape(v) + "'" }

  function Unquote(v: string): string {
    if |v| < 2 || v[0] != '\'' || v[|v| - 1] != '\'' then v
    else ReplaceAll(ReplaceAll(v[1..|v| - 1], "\\'", "'"), "\\\\", "\\")
  }

  function Doubled(v: string): string { ReplaceAll(v, "\\", "\\\\") }

  function QuotesEscaped(d: string): string { ReplaceAll(d, "'", "\\'") }

  lemma {:induction false} UndoubleDouble(v: string)
    ensures ReplaceAll(Doubled(v), "\\\\", "\\") == v
    decreases |v|
  {
    if v != "" {
      var rest := Doubled(v[1..]);
      UndoubleDouble(v[1..]);
      if v[0] == '\\' {
        assert "\\" <= v;
        assert Doubled(v) == "\\\\" + rest;
        assert "\\\\" <= Doubled(v) && Doubled(v)[2..] == rest;
      } else {
        assert Doubled(v) == [v[0]] + rest;
        assert Doubled(v)[1..] == rest;
      }
    }
  }

  lemma {:induction false} UnescapeQuotes(d: string)
    ensures ReplaceAll(QuotesEscaped(d), "\\'", "'") == d
    ensures QuotesEscaped(d) != "" ==> QuotesEscaped(d)[0] != '\''
    decreases |d|
  {
    if d != "" {
      var rest := QuotesEscaped(d[1..]);
      UnescapeQuotes(d[1..]);
      if d[0] == '\'' {
        assert "'" <= d;
        assert QuotesEscaped(d) == "\\'" + rest;
        assert "\\'" <= QuotesEscaped(d) && QuotesEscaped(d)[2..] == rest;
      } else {
        assert QuotesEscaped(d) == [d[0]] + rest;
        assert QuotesEscaped(d)[1..] == rest;
        assert !("\\'" <= QuotesEscaped(d)) by {
          assert rest != "" ==> QuotesEscaped(d)[1] == rest[0];
        }
      }
    }
  }

  /** The two sequential replacement passes of the reader undo the two of the printer, for all bytes. */
  lemma UnquoteQuote(v: string)
    ensures Unquote(Quote(v)) == v
  {
    var q := Quote(v);
    assert q[1..|q| - 1] == Escape(v);
    UnescapeQuotes(Doubled(v));
    UndoubleDouble(v);
  }

  /** Quoting is injective. */
  lemma QuoteInjective(v: string, w: string)
    requires Quote(v) == Quote(w)
    ensures v == w
  {
    UnquoteQuote(v);
    UnquoteQuote(w);
  }

  predicate Escaped(c: char) { c == '\\' || c == '\'' }

  function EscapeByte(c: char): string { if Escaped(c) then ['\\', c] else [c] }

  /** The two passes together: each backslash and quote gets one backslash. */
  lemma EscapeCons(v: string)
    requires v != ""
    ensures Escape(v) == EscapeByte(v[0]) + Escape(v[1..])
  {
    var rest := Doubled(v[1..]);
    if v[0] == '\\' {
      assert "\\" <= v;
      var d := "\\\\" + rest;
      assert Doubled(v) == d;
      assert d[1..] == "\\" + rest && d[1..][1..] == rest;
      assert QuotesEscaped(d) == "\\" + QuotesEscaped(d[1..]);
      assert QuotesEscaped(d[1..]) == "\\" + QuotesEscaped(rest);
    } else {
      var d := [v[0]] + rest;
      assert Doubled(v) == d && d[1..] == rest;
      assert v[0] != "\\"[0];
      assert Escape(v) == QuotesEscaped(d) && Escape(v[1..]) == QuotesEscaped(rest);
      if v[0] == '\'' {
        assert "'" <= d;
        assert QuotesEscaped(d) == "\\'" + QuotesEscaped(rest);
      } else {
        assert d[0] != "'"[0];
        assert QuotesEscaped(d) == [v[0]] + QuotesEscaped(rest);
      }
    }
  }

  // ---------------------------------------------------------------------------------------------
  // Splitting

  function SplitFrom(s: string, cur: string, inQuote: bool): seq<string>
    decreases |s|
  {
    if s == "" then if cur == "" then [] else [cur]
    else if s[0] == '\\' && |s| > 1 then SplitFrom(s[2..], cur + s[..2], inQuote)
    else if s[0] == '\'' then SplitFrom(s[1..], cur + "'", !inQuote)
    else if s[0] == ' ' && !inQuote then (if cur == "" then [] else [cur]) + SplitFrom(s[1..], "", false)
    else SplitFrom(s[1..], cur + [s[0]], inQuote)
  }

  function Split(dsn: string): seq<string> { if '=' in dsn then SplitFrom(dsn, "", false) else [] }

  method SplitKVDSN(dsn: string) returns (tokens: seq<string>)
    ensures tokens == Split(dsn)
  {
    if '=' !in dsn {
      return [];
    }
    tokens := [];
    var cur, inQuote, i := "", false, 0;
    while i < |dsn|
      invariant 0 <= i <= |dsn|
      invariant tokens + SplitFrom(dsn[i..], cur, inQuote) == Split(dsn)
    {
      var c := dsn[i];
      ghost var rest := dsn[i..];
      assert rest[1..] == dsn[i + 1..];
      if c == '\\' && i + 1 < |dsn| {
        assert rest[2..] == dsn[i + 2..] && cur + rest[..2] == cur + [c] + [dsn[i + 1]];
        cur, i := cur + [c] + [dsn[i + 1]], i + 2;
      } else if c == '\'' {
        inQuote, cur, i := !inQuote, cur + [c], i + 1;
      } else if c == ' ' && !inQuote {
        if |cur| > 0 {
          assert tokens + ([cur] + SplitFrom(rest[1..], "", false)) == tokens + [cur] + SplitFrom(rest[1..], "", false);
          tokens, cur := tokens + [cur], "";
        }
        i := i + 1;
      } else {
        cur, i := cur + [c], i + 1;
      }
    }
    if |cur| > 0 {
      tokens := tokens + [cur];
    }
  }

  // ---------------------------------------------------------------------------------------------
  // Reading a value

  /** strings.TrimSpace on ASCII white space. */
  function Trim(s: string): string
    decreases |s|
  {
    if s == "" then ""
    else if Space(s[0]) then Trim(s[1..])
    else if Space(s[|s| - 1]) then Trim(s[..|s| - 1])
    else s
  }

  function EqualsAt(tok: string): (k: nat)
    ensures k <= |tok| && (k < |tok| ==> tok[k] == '=') && '=' !in tok[..k]
  {
    if tok == "" || tok[0] == '=' then 0 else 1 + EqualsAt(tok[1..])
  }

  /** The value of one token, when the token is for this key. */
  function ValueOf(tok: string, key: string): Option<string> {
    var k := EqualsAt(tok);
    if k == |tok| || Trim(tok[..k]) != key then None else Some(Unquote(Trim(tok[k + 1..])))
  }

  function Lookup(tokens: seq<string>, key: string): Option<string> {
    if tokens == [] then None
    else if ValueOf(tokens[0], key).Some? then ValueOf(tokens[0], key)
    else Lookup(tokens[1..], key)
  }

  method KvDSNValue(dsn: string, key: string) returns (r: Option<string>)
    ensures r == Lookup(Split(dsn), key)
  {
    var tokens := SplitKVDSN(dsn);
    for i := 0 to |tokens|
      invariant Lookup(tokens[i..], key) == Lookup(tokens, key)
    {
      assert tokens[i..][1..] == tokens[i + 1..];
      var value := ValueOf(tokens[i], key);
      if value.Some? {
        return value;
      }
    }
    r := None;
  }

  // ---------------------------------------------------------------------------------------------
  // Printing

  datatype Connection = Connection(host: string, port: int, user: string, database: string, sslMode: string)

  function Decimal(n: nat): string {
    if n < 10 then [(n as char) + '0'] else Decimal(n / 10) + [((n % 10) as char) + '0']
  }

  function PortText(port: int): string { if port < 0 then "-" + Decimal(-port) else Decimal(port) }

  function Setting(key: string, value: string): string { key + "=" + Quote(value) }

  function Part(key: string, value: string): string { if value == "" then "" else " " + Setting(key, value) }

  function PortPart(port: int): string { if port == 0 then "" else " " + ("port=" + PortText(port)) }

  function BuildKVDSN(p: Connection): string {
    Setting("host", p.host) + (PortPart(p.port) + (Part("user", p.user) + (Part("dbname", p.database) + Part("sslmode", p.sslMode))))
  }

  /** Bytes that the splitter takes as they are, outside quotes. */
  predicate Plain(t: string) { forall c :: c in t ==> !Escaped(c) && c != ' ' }

  lemma {:induction false} PlainIsTaken(t: string, rest: string, cur: string)
    requires Plain(t)
    ensures SplitFrom(t + rest, cur, false) == SplitFrom(rest, cur + t, false)
    decreases |t|
  {
    if t == "" {
      assert t + rest == rest && cur + t == cur;
    } else {
      assert (t + rest)[1..] == t[1..] + rest && t[0] in t;
      PlainIsTaken(t[1..], rest, cur + [t[0]]);
      assert cur + [t[0]] + t[1..] == cur + t;
    }
  }

  lemma EscapedByteIsTaken(c: char, rest: string, cur: string)
    requires rest != ""
    ensures SplitFrom(EscapeByte(c) + rest, cur, true) == SplitFrom(rest, cur + EscapeByte(c), true)
  {
    var e := EscapeByte(c);
    assert (e + rest)[|e|..] == rest && (e + rest)[..|e|] == e && (e + rest)[0] == e[0];
  }

  lemma EscapeNil()
    ensures Escape("") == ""
  {
  }

  lemma {:induction false} EscapedIsTaken(v: string, rest: string, cur: string)
    requires rest != ""
    ensures SplitFrom(Escape(v) + rest, cur, true) == SplitFrom(rest, cur + Escape(v), true)
    decreases |v|
  {
    hide Escape, EscapeByte, SplitFrom;
    if v == "" {
      EscapeNil();
      assert Escape(v) + rest == rest && cur + Escape(v) == cur;
    } else {
      EscapeCons(v);
      var e, tail := EscapeByte(v[0]), Escape(v[1..]);
      Joined(e, tail, rest);
      Joined(cur, e, tail);
      EscapedByteIsTaken(v[0], tail + rest, cur);
      EscapedIsTaken(v[1..], rest, cur + e);
    }
  }

  lemma Joined(a: string, b: string, c: string)
    ensures a + b + c == a + (b + c)
  {
  }

  /** A printed setting is one token, whatever bytes its value has. */
  lemma SettingIsOneToken(key: string, value: string, rest: string)
    requires Plain(key)
    ensures SplitFrom(Setting(key, value) + rest, "", false) == SplitFrom(rest, Setting(key, value), false)
  {
    var head := key + "=";
    var body := Escape(value);
    var tail := "'" + rest;
    assert Setting(key, value) + rest == head + ("'" + (body + tail));
    PlainIsTaken(head, "'" + (body + tail), "");
    assert "" + head == head;
    assert ("'" + (body + tail))[1..] == body + tail;
    EscapedIsTaken(value, tail, head + "'");
    assert tail[1..] == rest;
    assert head + "'" + body + "'" == Setting(key, value);
  }

  lemma PartAfter(cur: string, key: string, value: string, rest: string)
    requires cur != "" && Plain(key)
    ensures SplitFrom(Part(key, value) + rest, cur, false)
      == if value == "" then SplitFrom(rest, cur, false)
         else [cur] + SplitFrom(rest, Setting(key, value), false)
  {
    hide Setting;
    if value == "" {
      assert Part(key, value) + rest == rest;
    } else {
      var s := Part(key, value) + rest;
      assert s[0] == ' ' && s[1..] == Setting(key, value) + rest;
      SettingIsOneToken(key, value, rest);
    }
  }

  lemma {:induction false} DecimalIsPlain(n: nat)
    ensures Plain(Decimal(n)) && Decimal(n) != ""
  {
    if n >= 10 {
      DecimalIsPlain(n / 10);
    }
  }

  lemma PlainPair(a: string, b: string)
    requires Plain(a) && Plain(b)
    ensures Plain(a + b)
  {
  }

  lemma TokenAfter(cur: string, tok: string, rest: string)
    requires cur != "" && Plain(tok)
    ensures SplitFrom(" " + tok + rest, cur, false) == [cur] + SplitFrom(rest, tok, false)
  {
    var s := " " + tok + rest;
    assert s[0] == ' ' && s[1..] == tok + rest;
    PlainIsTaken(tok, rest, "");
    assert "" + tok == tok;
  }

  lemma PortAfter(cur: string, port: int, rest: string)
    requires cur != ""
    ensures SplitFrom(PortPart(port) + rest, cur, false)
      == if port == 0 then SplitFrom(rest, cur, false)
         else [cur] + SplitFrom(rest, "port=" + PortText(port), false)
  {
    if port == 0 {
      assert PortPart(port) + rest == rest;
    } else {
      DecimalIsPlain(if port < 0 then -port else port);
      if port < 0 {
        PlainPair("-", Decimal(-port));
      }
      PlainPair("port=", PortText(port));
      TokenAfter(cur, "port=" + PortText(port), rest);
    }
  }

  function Token(key: string, value: string): seq<string> { if value == "" then [] else [Setting(key, value)] }

  function SslTokens(p: Connection): seq<string> { Token("sslmode", p.sslMode) }

  function DatabaseTokens(p: Connection): seq<string> { Token("dbname", p.database) + SslTokens(p) }

  function UserTokens(p: Connection): seq<string> { Token("user", p.user) + DatabaseTokens(p) }

  function PortTokens(p: Connection): seq<string> {
    (if p.port == 0 then [] else ["port=" + PortText(p.port)]) + UserTokens(p)
  }

  /** The tokens of a printed connection string: one for the host and for each field that is set. */
  function TokensOf(p: Connection): seq<string> { [Setting("host", p.host)] + PortTokens(p) }

  lemma PartThen(cur: string, key: string, value: string, rest: string, tokens: seq<string>)
    requires cur != "" && Plain(key)
    requires SplitFrom(rest, cur, false) == [cur] + tokens
    requires SplitFrom(rest, Setting(key, value), false) == [Setting(key, value)] + tokens
    ensures SplitFrom(Part(key, value) + rest, cur, false) == [cur] + (Token(key, value) + tokens)
  {
    PartAfter(cur, key, value, rest);
  }

  lemma SslSplits(p: Connection, cur: string)
    requires cur != ""
    ensures SplitFrom(Part("sslmode", p.sslMode), cur, false) == [cur] + SslTokens(p)
  {
    PartThen(cur, "sslmode", p.sslMode, "", []);
    assert Part("sslmode", p.sslMode) + "" == Part("sslmode", p.sslMode);
    assert SslTokens(p) + [] == SslTokens(p);
  }

  lemma DatabaseSplits(p: Connection, cur: string)
    requires cur != ""
    ensures SplitFrom(Part("dbname", p.database) + Part("sslmode", p.sslMode), cur, false) == [cur] + DatabaseTokens(p)
  {
    SslSplits(p, cur);
    SslSplits(p, Setting("dbname", p.database));
    PartThen(cur, "dbname", p.database, Part("sslmode", p.sslMode), SslTokens(p));
  }

  lemma UserSplits(p: Connection, cur: string)
    requires cur != ""
    ensures var rest := Part("dbname", p.database) + Part("sslmode", p.sslMode);
      SplitFrom(Part("user", p.user) + rest, cur, false) == [cur] + UserTokens(p)
  {
    DatabaseSplits(p, cur);
    DatabaseSplits(p, Setting("user", p.user));
    PartThen(cur, "user", p.user, Part("dbname", p.database) + Part("sslmode", p.sslMode), DatabaseTokens(p));
  }

  lemma PortSplits(p: Connection, cur: string)
    requires cur != ""
    ensures var rest := Part("user", p.user) + (Part("dbname", p.database) + Part("sslmode", p.sslMode));
      SplitFrom(PortPart(p.port) + rest, cur, false) == [cur] + PortTokens(p)
  {
    var rest := Part("user", p.user) + (Part("dbname", p.database) + Part("sslmode", p.sslMode));
    UserSplits(p, cur);
    UserSplits(p, "port=" + PortText(p.port));
    PortAfter(cur, p.port, rest);
  }

  /** Splitting a printed connection string gives back its settings, one token each. */
  lemma BuiltSplits(p: Connection)
    ensures Split(BuildKVDSN(p)) == TokensOf(p)
  {
    var rest := PortPart(p.port) + (Part("user", p.user) + (Part("dbname", p.database) + Part("sslmode", p.sslMode)));
    assert BuildKVDSN(p) == Setting("host", p.host) + rest;
    assert BuildKVDSN(p)[4] == '=';
    SettingIsOneToken("host", p.host, rest);
    PortSplits(p, Setting("host", p.host));
  }

  lemma {:induction false} FirstEquals(key: string, rest: string)
    requires '=' !in key
    ensures EqualsAt(key + "=" + rest) == |key|
    decreases |key|
  {
    var tok := key + "=" + rest;
    if key != "" {
      assert tok[1..] == key[1..] + "=" + rest;
      assert key[0] in key;
      FirstEquals(key[1..], rest);
    }
  }

  /** A setting answers for its own key, with its value, and for no other. */
  lemma SettingValue(key: string, value: string, wanted: string)
    requires key != "" && '=' !in key && !Space(key[0]) && !Space(key[|key| - 1])
    ensures ValueOf(Setting(key, value), wanted) == if wanted == key then Some(value) else None
  {
    var tok := Setting(key, value);
    FirstEquals(key, Quote(value));
    assert tok[..|key|] == key && tok[|key| + 1..] == Quote(value);
    assert Trim(Quote(value)) == Quote(value);
    UnquoteQuote(value);
  }

  lemma PortValue(port: int, wanted: string)
    requires wanted != "port"
    ensures ValueOf("port=" + PortText(port), wanted).None?
  {
    var tok := "port=" + PortText(port);
    assert tok == "port" + "=" + PortText(port);
    FirstEquals("port", PortText(port));
    assert tok[..4] == "port" && Trim("port") == "port";
  }

  lemma LookupTwo(a: seq<string>, b: seq<string>, key: string)
    requires |a| <= 1
    ensures Lookup(a + b, key) == if a != [] && ValueOf(a[0], key).Some? then ValueOf(a[0], key) else Lookup(b, key)
  {
    if a != [] {
      assert (a + b)[1..] == b;
    } else {
      assert a + b == b;
    }
  }

  lemma FoundInToken(key: string, value: string, rest: seq<string>, wanted: string)
    requires key != "" && '=' !in key && !Space(key[0]) && !Space(key[|key| - 1])
    ensures Lookup(Token(key, value) + rest, wanted)
      == if wanted == key && value != "" then Some(value) else Lookup(rest, wanted)
  {
    LookupTwo(Token(key, value), rest, wanted);
    SettingValue(key, value, wanted);
  }

  /** A field of the profile by its key. */
  function FieldOf(p: Connection, key: string): string {
    if key == "user" then p.user else if key == "dbname" then p.database else p.sslMode
  }

  lemma FieldsReadBack(p: Connection, key: string)
    requires key in {"user", "dbname", "sslmode"}
    ensures Lookup(UserTokens(p), key) == if FieldOf(p, key) == "" then None else Some(FieldOf(p, key))
  {
    SslReadsBack(p, key);
    DatabaseReadsBack(p, key);
    FoundInToken("user", p.user, DatabaseTokens(p), key);
  }

  lemma SslReadsBack(p: Connection, key: string)
    ensures Lookup(SslTokens(p), key) == if key == "sslmode" && p.sslMode != "" then Some(p.sslMode) else None
  {
    FoundInToken("sslmode", p.sslMode, [], key);
    assert SslTokens(p) + [] == SslTokens(p);
  }

  lemma DatabaseReadsBack(p: Connection, key: string)
    ensures Lookup(DatabaseTokens(p), key)
      == if key == "dbname" && p.database != "" then Some(p.database) else Lookup(SslTokens(p), key)
  {
    FoundInToken("dbname", p.database, SslTokens(p), key);
  }

  lemma PortSkipped(p: Connection, key: string)
    requires key != "port"
    ensures Lookup(PortTokens(p), key) == Lookup(UserTokens(p), key)
  {
    LookupTwo(if p.port == 0 then [] else ["port=" + PortText(p.port)], UserTokens(p), key);
    PortValue(p.port, key);
  }

  lemma HostFirst(p: Connection, key: string)
    ensures Lookup(TokensOf(p), key) == if key == "host" then Some(p.host) else Lookup(PortTokens(p), key)
  {
    LookupTwo([Setting("host", p.host)], PortTokens(p), key);
    SettingValue("host", p.host, key);
  }

  /** Printing and reading agree: the host is always found, each other field exactly when it is set, and
      each with the very bytes of the profile. */
  lemma BuiltReadsBack(p: Connection, key: string)
    requires key in {"user", "dbname", "sslmode"}
    ensures Lookup(Split(BuildKVDSN(p)), "host") == Some(p.host)
    ensures Lookup(Split(BuildKVDSN(p)), key) == if FieldOf(p, key) == "" then None else Some(FieldOf(p, key))
  {
    BuiltSplits(p);
    HostFirst(p, "host");
    HostFirst(p, key);
    PortSkipped(p, key);
    FieldsReadBack(p, key);
  }

  // ---------------------------------------------------------------------------------------------
  // The port, and values without quotes

  /** Decimal digits for the number, without leading zeros. */
  predicate WritesNat(t: string, n: nat) {
    t != "" && AllDigits(t) && AsciiBytes.ValueOf(t) == n && (|t| > 1 ==> t[0] != '0')
  }

  predicate WritesInt(t: string, n: int) {
    if n < 0 then t != "" && t[0] == '-' && WritesNat(t[1..], -n) else WritesNat(t, n)
  }

  lemma {:induction false} ValueOfSnoc(t: string, c: char)
    requires AllDigits(t) && Digit(c)
    ensures AllDigits(t + [c]) && AsciiBytes.ValueOf(t + [c]) == 10 * AsciiBytes.ValueOf(t) + DigitOf(c)
    decreases |t|
  {
    var u := t + [c];
    if t == "" {
      assert u[1..] == "" && Pow(10, 0) == 1;
    } else {
      assert u[0] == t[0] && u[1..] == t[1..] + [c];
      ValueOfSnoc(t[1..], c);
      TenTimes(DigitOf(t[0]), |t| - 1);
    }
  }

  lemma TenTimes(d: nat, n: nat)
    ensures d * Pow(10, n + 1) == 10 * (d * Pow(10, n))
  {
  }

  lemma {:induction false} DecimalWrites(n: nat)
    ensures WritesNat(Decimal(n), n)
    decreases n
  {
    if n < 10 {
      var t := Decimal(n);
      assert t == "" + t;
      ValueOfSnoc("", t[0]);
    } else {
      var last := ((n % 10) as char) + '0';
      DecimalWrites(n / 10);
      ValueOfSnoc(Decimal(n / 10), last);
      DecimalStarts(n / 10);
    }
  }

  lemma {:induction false} DecimalStarts(n: nat)
    requires n > 0
    ensures Decimal(n) != "" && Decimal(n)[0] != '0'
    decreases n
  {
    if n >= 10 {
      DecimalStarts(n / 10);
    }
  }

  lemma PortTextWrites(port: int)
    ensures WritesInt(PortText(port), port)
    ensures PortText(port) != "" && forall c :: c in PortText(port) ==> c == '-' || Digit(c)
  {
    DecimalWrites(if port < 0 then -port else port);
    if port < 0 {
      assert ("-" + Decimal(-port))[1..] == Decimal(-port);
    }
  }

  /** The port is read back in decimal, with its sign, and is absent exactly when it is zero. */
  lemma PortReadsBack(p: Connection)
    ensures var r := Lookup(Split(BuildKVDSN(p)), "port");
      if p.port == 0 then r == None else r.Some? && WritesInt(r.value, p.port)
  {
    hide WritesInt, Decimal, PortText, BuildKVDSN, Split, Lookup, ValueOf, UserTokens;
    BuiltSplits(p);
    HostFirst(p, "port");
    OthersHaveNoPort(p);
    LookupTwo(if p.port == 0 then [] else ["port=" + PortText(p.port)], UserTokens(p), "port");
    PortTextWrites(p.port);
    PortTextValue(p.port);
  }

  lemma PortTextValue(port: int)
    ensures ValueOf("port=" + PortText(port), "port") == Some(PortText(port))
  {
    hide WritesInt, Decimal, PortText, ValueOf;
    PortTextWrites(port);
    var t := PortText(port);
    assert t[0] in t && t[|t| - 1] in t;
    BareValue("port", t);
    assert "port" + "=" + t == "port=" + t;
  }

  lemma OthersHaveNoPort(p: Connection)
    ensures Lookup(UserTokens(p), "port") == None
  {
    SslReadsBack(p, "port");
    DatabaseReadsBack(p, "port");
    FoundInToken("user", p.user, DatabaseTokens(p), "port");
  }

  /** A value that needs no quotes: its blanks and quotes have a backslash in front. */
  predicate Bare(v: string)
    decreases |v|
  {
    if v == "" then true
    else if v[0] == '\\' then |v| > 1 && Bare(v[2..])
    else v[0] != ' ' && v[0] != '\'' && Bare(v[1..])
  }

  predicate Trimmed(v: string) { v != "" ==> !Space(v[0]) && !Space(v[|v| - 1]) }

  predicate ProperKey(key: string) { key != "" && Plain(key) && '=' !in key && Trimmed(key) }

  lemma {:induction false} BareIsTaken(v: string, rest: string, cur: string)
    requires Bare(v)
    ensures SplitFrom(v + rest, cur, false) == SplitFrom(rest, cur + v, false)
    decreases |v|
  {
    if v == "" {
      assert v + rest == rest && cur + v == cur;
    } else if v[0] == '\\' {
      assert (v + rest)[2..] == v[2..] + rest && (v + rest)[..2] == v[..2];
      BareIsTaken(v[2..], rest, cur + v[..2]);
      assert cur + v[..2] + v[2..] == cur + v;
    } else {
      assert (v + rest)[1..] == v[1..] + rest;
      BareIsTaken(v[1..], rest, cur + [v[0]]);
      assert cur + [v[0]] + v[1..] == cur + v;
    }
  }

  lemma BareValue(key: string, v: string)
    requires ProperKey(key) && Trimmed(v) && (v != "" ==> v[0] != '\'')
    ensures ValueOf(key + "=" + v, key) == Some(v)
  {
    var tok := key + "=" + v;
    FirstEquals(key, v);
    assert tok[..|key|] == key && tok[|key| + 1..] == v;
    assert Trim(key) == key && Trim(v) == v;
  }

  /** A value written without quotes is read as it stands, its backslashes included, whatever follows it. */
  lemma BareReadsBack(key: string, v: string, rest: string)
    requires ProperKey(key) && Bare(v) && Trimmed(v)
    ensures Lookup(Split(key + "=" + v + " " + rest), key) == Some(v) == Lookup(Split(key + "=" + v), key)
  {
    hide SplitFrom, Bare;
    var tok := key + "=" + v;
    var dsn := tok + " " + rest;
    assert dsn[|key|] == '=' && tok[|key|] == '=';
    TokenTaken(key, v, " " + rest);
    TokenTaken(key, v, "");
    assert tok + (" " + rest) == dsn && tok + "" == tok;
    BlankEnds(tok, rest);
    BareStart(v);
    BareValue(key, v);
    assert ([tok] + SplitFrom(rest, "", false))[0] == tok;
  }

  lemma BareStart(v: string)
    requires Bare(v)
    ensures v != "" ==> v[0] != '\''
  {
  }

  lemma TokenTaken(key: string, v: string, rest: string)
    requires Plain(key) && Bare(v)
    ensures SplitFrom(key + "=" + v + rest, "", false) == SplitFrom(rest, key + "=" + v, false)
  {
    hide SplitFrom, Bare;
    PlainPair(key, "=");
    PlainIsTaken(key + "=", v + rest, "");
    assert key + "=" + v + rest == (key + "=") + (v + rest) && "" + (key + "=") == key + "=";
    BareIsTaken(v, rest, key + "=");
  }

  lemma BlankEnds(tok: string, rest: string)
    requires tok != ""
    ensures SplitFrom(" " + rest, tok, false) == [tok] + SplitFrom(rest, "", false)
    ensures SplitFrom("", tok, false) == [tok]
  {
    assert (" " + rest)[1..] == rest;
  }
}
