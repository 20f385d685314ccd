/** The auth URLs read back as a browser and `URLSearchParams` read them: tabs and line breaks go, the
    fragment goes, the query is split at `&` and each part at its first `=`, and name and value are
    form-decoded. Which parameters survive that is stated exactly. */
module AuthUrlReading {
  import opened Common
  import opened AuthUrl

  // ---------- The reader ----------

  predicate IsBreak(c: char) {
    c == '\t' || c == '\n' || c == '\r'
  }

  function StripBreaks(s: string): (t: string)
    ensures |t| <= |s|
  {
    if s == "" then "" else (if IsBreak(s[0]) then "" else [s[0]]) + StripBreaks(s[1..])
  }

  /** Everything up to the first `c`, and what follows it. */
  function SplitFirst(s: string, c: char): (r: (string, Option<string>))
    ensures |r.0| <= |s| && (r.1.Some? ==> |r.1.value| < |s|)
  {
    if s == "" then ("", None)
    else if s[0] == c then ("", Some(s[1..]))
    else var (x, y) := SplitFirst(s[1..], c); ([s[0]] + x, y)
  }

  function Before(s: string, c: char): string {
    SplitFirst(s, c).0
  }

  function ReadPair(part: string): (string, string) {
    var (name, value) := SplitFirst(part, '=');
    (UrlDecode(name), UrlDecode(if value.None? then "" else value.value))
  }

  /** Empty parts are skipped. */
  function ReadFields(q: string): Params
    decreases |q|
  {
    var (first, rest) := SplitFirst(q, '&');
    (if first == "" then [] else [ReadPair(first)]) + (if rest.None? then [] else ReadFields(rest.value))
  }

  function ReadQuery(q: string): Params {
    ReadFields(Before(StripBreaks(q), '#'))
  }

  /** Address and parameters. */
  function ReadUrl(url: string): (string, Params) {
    var (address, query) := SplitFirst(Before(StripBreaks(url), '#'), '?');
    (address, if query.None? then [] else ReadFields(query.value))
  }

  lemma {:induction false} StripConcat(x: string, y: string)
    ensures StripBreaks(x + y) == StripBreaks(x) + StripBreaks(y)
  {
    if x == "" {
      assert x + y == y;
    } else {
      assert (x + y)[1..] == x[1..] + y;
      StripConcat(x[1..], y);
    }
  }

  lemma {:induction false} StripPlain(x: string)
    ensures StripBreaks(x) == x <==> forall i :: 0 <= i < |x| ==> !IsBreak(x[i])
  {
    if x != "" {
      StripPlain(x[1..]);
      assert forall i :: 0 < i < |x| ==> x[i] == x[1..][i - 1];
    }
  }

  lemma {:induction false} SplitConcat(x: string, y: string, c: char)
    requires c !in x
    ensures SplitFirst(x + y, c) == (x + SplitFirst(y, c).0, SplitFirst(y, c).1)
  {
    if x == "" {
      assert x + y == y && x + SplitFirst(y, c).0 == SplitFirst(y, c).0;
    } else {
      assert (x + y)[1..] == x[1..] + y && (x + y)[0] == x[0] && x[0] in x;
      SplitConcat(x[1..], y, c);
      assert x + SplitFirst(y, c).0 == [x[0]] + (x[1..] + SplitFirst(y, c).0);
    }
  }

  /** Once the delimiter is there, what follows does not matter for what stands before it. */
  lemma {:induction false} BeforeConcat(x: string, y: string, c: char)
    requires c in x
    ensures Before(x + y, c) == Before(x, c)
  {
    assert (x + y)[1..] == x[1..] + y;
    if x[0] != c { BeforeConcat(x[1..], y, c); }
  }

  lemma {:induction false} BeforePlain(x: string, c: char)
    ensures c !in x <==> |Before(x, c)| == |x|
    ensures c !in x ==> SplitFirst(x, c) == (x, None)
    ensures c !in Before(x, c) && Before(x, c) <= x
  {
    if x != "" {
      BeforePlain(x[1..], c);
      assert x == [x[0]] + x[1..];
    }
  }

  // ---------- Which values survive ----------

  /** Nothing that ends a value early or drops out of it. */
  predicate Unbroken(v: string) {
    forall i :: 0 <= i < |v| ==> v[i] != '&' && v[i] != '#' && !IsBreak(v[i])
  }

  /** And nothing that decodes to something else. */
  predicate Survives(v: string) {
    Unbroken(v) && Undecoded(v)
  }

  predicate Undecoded(v: string) {
    forall i :: 0 <= i < |v| ==> v[i] != '+' && !IsTriplet(v[i..])
  }

  lemma {:induction false} DecodeKeeps(v: string)
    ensures |UrlDecode(v)| <= |v|
    ensures UrlDecode(v) == v <==> Undecoded(v)
    decreases |v|
  {
    if v != "" {
      if IsTriplet(v) {
        DecodeKeeps(v[3..]);
        assert v[0..] == v;
      } else {
        DecodeKeeps(v[1..]);
        UndecodedCons(v);
      }
    }
  }

  lemma UndecodedCons(v: string)
    requires v != "" && !IsTriplet(v)
    ensures Undecoded(v) <==> v[0] != '+' && Undecoded(v[1..])
  {
    assert v[0..] == v;
    assert forall i :: 0 <= i < |v| - 1 ==> v[1..][i] == v[i + 1] && v[1..][i..] == v[i + 1..];
    if v[0] != '+' && Undecoded(v[1..]) {
      forall i | 0 <= i < |v| ensures v[i] != '+' && !IsTriplet(v[i..]) {
        if i > 0 { assert v[1..][i - 1] == v[i]; }
      }
    }
  }

  /** What the reader sees of a value that is printed as it is. */
  function Seen(v: string): string {
    Before(Before(StripBreaks(v), '#'), '&')
  }

  lemma SeenExactly(v: string)
    ensures Seen(v) == v <==> Unbroken(v)
    ensures |Seen(v)| < |v| || Seen(v) == v
  {
    var s := StripBreaks(v);
    var h := Before(s, '#');
    StripPlain(v);
    StripShorter(v);
    BeforePlain(s, '#');
    BeforePlain(h, '&');
  }

  lemma {:induction false} StripShorter(v: string)
    ensures |StripBreaks(v)| == |v| ==> StripBreaks(v) == v
  {
    if v != "" { StripShorter(v[1..]); }
  }

  lemma ReadExactly(v: string)
    ensures UrlDecode(Seen(v)) == v <==> Survives(v)
  {
    SeenExactly(v);
    DecodeKeeps(Seen(v));
    DecodeKeeps(v);
  }

  // ---------- Reading a printed query ----------

  predicate SafeText(s: string) {
    forall i :: 0 <= i < |s| ==> IsUnreserved(s[i])
  }

  lemma SafeChar(c: char)
    requires IsUnreserved(c)
    ensures c != '&' && c != '#' && c != '+' && c != '%' && c != '=' && c != '?' && !IsBreak(c)
  {
  }

  lemma SafeSurvives(s: string)
    requires SafeText(s)
    ensures Survives(s) && '=' !in s && '&' !in s && '#' !in s && '?' !in s
    ensures UrlDecode(s) == s && StripBreaks(s) == s
  {
    forall i | 0 <= i < |s|
      ensures s[i] != '&' && s[i] != '#' && s[i] != '+' && s[i] != '%' && s[i] != '=' && s[i] != '?' && !IsBreak(s[i])
    {
      SafeChar(s[i]);
    }
    assert Unbroken(s) && Undecoded(s);
    DecodeKeeps(s);
    StripPlain(s);
  }

  /** The field that starts with the printed value `s` ends where the value is broken, or before `t`. */
  lemma CutSeen(s: string, t: string)
    requires t == "" || t[0] == '&'
    ensures Before(Before(s + t, '#'), '&') == Before(Before(s, '#'), '&')
    ensures '&' !in s && '#' !in s ==>
              SplitFirst(Before(s + t, '#'), '&') == (s, SplitFirst(Before(t, '#'), '&').1)
  {
    BeforePlain(s, '#');
    if '#' in s {
      BeforeConcat(s, t, '#');
    } else {
      SplitConcat(s, t, '#');
      BeforePlain(s, '&');
      if '&' in s { BeforeConcat(s, Before(t, '#'), '&'); } else { SplitConcat(s, Before(t, '#'), '&'); }
    }
  }

  /** What is read first, and, after an unbroken value, what is read next. */
  lemma ReadHead(name: string, v: string, more: bool, rest: string)
    requires SafeText(name) && name != ""
    ensures var q := if more then name + "=" + v + "&" + rest else name + "=" + v;
            && ReadQuery(q) != [] && ReadQuery(q)[0] == (name, UrlDecode(Seen(v)))
            && (Unbroken(v) ==> ReadQuery(q) == [(name, UrlDecode(v))] + if more then ReadQuery(rest) else [])
  {
    var s, t := StripBreaks(v), StripBreaks(if more then "&" + rest else "");
    var cut := Before(s + t, '#');
    QueryCut(name, v, more, rest);
    FieldsOf(name, cut);
    TailRead(more, rest);
    CutSeen(s, t);
    if Unbroken(v) {
      StripPlain(v);
      SeenExactly(v);
      UnbrokenHasNone(v);
    }
  }

  lemma BeforeAfterHead(name: string, s: string, t: string)
    requires SafeText(name)
    ensures Before(name + "=" + s + t, '#') == name + "=" + Before(s + t, '#')
  {
    var head := name + "=";
    HeadHasNone(name);
    SplitConcat(head, s + t, '#');
    assert head + s + t == head + (s + t);
  }

  lemma QueryCut(name: string, v: string, more: bool, rest: string)
    requires SafeText(name)
    ensures ReadQuery(if more then name + "=" + v + "&" + rest else name + "=" + v)
         == ReadFields(name + "=" + Before(StripBreaks(v) + StripBreaks(if more then "&" + rest else ""), '#'))
  {
    var s, t := StripBreaks(v), StripBreaks(if more then "&" + rest else "");
    StripAround(name, v, more, rest);
    BeforeAfterHead(name, s, t);
  }

  lemma UnbrokenHasNone(v: string)
    requires Unbroken(v)
    ensures '&' !in v && '#' !in v
  {
  }

  lemma HeadHasNone(name: string)
    requires SafeText(name)
    ensures '#' !in name + "=" && '&' !in name + "=" && '=' !in name
  {
    SafeSurvives(name);
  }

  lemma Reassociate(x: string, y: string, z: string)
    ensures x + y + z == x + (y + z)
  {
  }

  lemma StripAround(name: string, v: string, more: bool, rest: string)
    requires SafeText(name)
    ensures StripBreaks(name + "=") == name + "="
    ensures StripBreaks(if more then name + "=" + v + "&" + rest else name + "=" + v)
         == name + "=" + StripBreaks(v) + StripBreaks(if more then "&" + rest else "")
  {
    SafeSurvives(name);
    StripConcat(name, "=");
    StripConcat(name + "=", v);
    if more {
      StripConcat(name + "=" + v, "&" + rest);
      Reassociate(name + "=" + v, "&", rest);
    }
  }

  /** After `name=` the first field runs to the next `&`. */
  lemma FieldsOf(name: string, cut: string)
    requires SafeText(name) && name != ""
    ensures var (v, rest) := SplitFirst(cut, '&');
            ReadFields(name + "=" + cut)
            == [(name, UrlDecode(v))] + if rest.None? then [] else ReadFields(rest.value)
  {
    var v := SplitFirst(cut, '&').0;
    HeadHasNone(name);
    SplitConcat(name + "=", cut, '&');
    PairRead(name, v);
  }

  lemma PairRead(name: string, v: string)
    requires SafeText(name)
    ensures ReadPair(name + "=" + v) == (name, UrlDecode(v))
  {
    SafeSurvives(name);
    var tail := "=" + v;
    SplitConcat(name, tail, '=');
    assert tail[1..] == v && SplitFirst(tail, '=') == ("", Some(v));
    assert name + "=" + v == name + tail && name + "" == name;
  }

  lemma TailRead(more: bool, rest: string)
    ensures var t := Before(StripBreaks(if more then "&" + rest else ""), '#');
            && SplitFirst(t, '&').0 == ""
            && (StripBreaks(if more then "&" + rest else "") == "" <==> !more)
            && (more ==> StripBreaks("&" + rest)[0] == '&')
            && (more ==> SplitFirst(t, '&').1.Some? && ReadFields(SplitFirst(t, '&').1.value) == ReadQuery(rest))
            && (!more ==> SplitFirst(t, '&').1.None?)
  {
    if more {
      assert ("&" + rest)[1..] == rest;
      var t := "&" + StripBreaks(rest);
      assert t[1..] == StripBreaks(rest);
      assert Before(t, '#') == "&" + Before(StripBreaks(rest), '#');
      assert Before(t, '#')[1..] == Before(StripBreaks(rest), '#');
    }
  }

  // ---------- Parameters ----------

  /** A parameter printed as it is, or percent-encoded. */
  datatype Item = Raw(name: string, text: string) | Coded(name: string, bytes: seq<Byte>) {
    function Value(): string { if Raw? then text else UrlEncode(bytes) }
    function Meaning(): string { if Raw? then text else AsText(bytes) }
  }

  function Printed(items: seq<Item>): (ps: Params)
    ensures |ps| == |items|
  {
    seq(|items|, i requires 0 <= i < |items| => (items[i].name, items[i].Value()))
  }

  function Meanings(items: seq<Item>): (ps: Params)
    ensures |ps| == |items|
  {
    seq(|items|, i requires 0 <= i < |items| => (items[i].name, items[i].Meaning()))
  }

  predicate NamesSafe(items: seq<Item>) {
    forall i :: 0 <= i < |items| ==> items[i].name != "" && SafeText(items[i].name)
  }

  predicate RawSurvive(items: seq<Item>) {
    forall i :: 0 <= i < |items| && items[i].Raw? ==> Survives(items[i].text)
  }

  lemma ByteUnbroken(b: Byte)
    ensures Unbroken(EncodeByte(b))
  {
    if IsUnreserved(b as char) { SafeChar(b as char); } else { HexUnbroken(b / 16); HexUnbroken(b % 16); }
  }

  lemma HexUnbroken(d: int)
    requires 0 <= d < 16
    ensures Unbroken([HEX[d]])
  {
    SafeChar(HEX[d]);
  }

  lemma {:induction false} EncodedUnbroken(s: seq<Byte>)
    ensures Unbroken(UrlEncode(s))
  {
    if s != [] {
      ByteUnbroken(s[0]);
      EncodedUnbroken(s[1..]);
    }
  }

  /** The value reads back as meant: always when it was encoded, else exactly if it survives. */
  lemma ItemReads(x: Item)
    ensures UrlDecode(Seen(x.Value())) == x.Meaning() <==> (x.Raw? ==> Survives(x.text))
    ensures UrlDecode(Seen(x.Value())) == x.Meaning() ==> Unbroken(x.Value()) && UrlDecode(x.Value()) == x.Meaning()
  {
    if x.Raw? {
      ReadExactly(x.text);
      DecodeKeeps(x.text);
    } else {
      EncodedUnbroken(x.bytes);
      SeenExactly(x.Value());
      DecodeEncode(x.bytes);
    }
  }

  lemma PrintedQuery(items: seq<Item>)
    requires items != []
    ensures var x, rest := items[0], PrintQuery(Printed(items[1..]));
            PrintQuery(Printed(items))
            == if |items| > 1 then x.name + "=" + x.Value() + "&" + rest else x.name + "=" + x.Value()
  {
    assert Printed(items)[1..] == Printed(items[1..]);
  }

  /** A printed parameter list reads back as meant exactly if every value printed without encoding
      survives: no `&`, `#`, `+`, tab or line break in it, and no `%` with two hex digits after it. */
  lemma {:induction false} QueryReadsExactly(items: seq<Item>)
    requires items != [] && NamesSafe(items)
    ensures ReadQuery(PrintQuery(Printed(items))) == Meanings(items) <==> RawSurvive(items)
    decreases |items|
  {
    RawSurviveCons(items);
    HeadReads(items);
    if |items| > 1 { QueryReadsExactly(items[1..]); }
  }

  /** The first parameter decides, or leaves it to the others. */
  lemma HeadReads(items: seq<Item>)
    requires items != [] && NamesSafe(items)
    ensures ReadQuery(PrintQuery(Printed(items))) == Meanings(items) <==>
              && (items[0].Raw? ==> Survives(items[0].text))
              && (|items| > 1 ==> ReadQuery(PrintQuery(Printed(items[1..]))) == Meanings(items[1..]))
  {
    var x, more, rest := items[0], |items| > 1, PrintQuery(Printed(items[1..]));
    var read := ReadQuery(PrintQuery(Printed(items)));
    HeadRead(items);
    ItemReads(x);
    var m := (x.name, x.Meaning());
    assert Meanings(items) == [m] + Meanings(items[1..]);
    SameLists(read, m, if more then ReadQuery(rest) else [], Meanings(items), Meanings(items[1..]));
  }

  lemma HeadRead(items: seq<Item>)
    requires items != [] && NamesSafe(items)
    ensures var x, read := items[0], ReadQuery(PrintQuery(Printed(items)));
            && read != [] && read[0] == (x.name, UrlDecode(Seen(x.Value())))
            && (Unbroken(x.Value()) ==>
                  read == [(x.name, UrlDecode(x.Value()))] + if |items| > 1 then ReadQuery(PrintQuery(Printed(items[1..]))) else [])
  {
    PrintedQuery(items);
    ReadHead(items[0].name, items[0].Value(), |items| > 1, PrintQuery(Printed(items[1..])));
  }

  /** Lists with the same tails, or the same heads. */
  lemma SameLists(read: Params, m: (string, string), rest: Params, all: Params, others: Params)
    requires read != [] && all == [m] + others
    requires read[0] == m ==> read == [m] + rest
    ensures read == all <==> read[0] == m && rest == others
  {
    if read == all { assert rest == read[1..] && others == all[1..]; }
  }

  lemma RawSurviveCons(items: seq<Item>)
    requires items != []
    ensures RawSurvive(items) <==> (items[0].Raw? ==> Survives(items[0].text)) && RawSurvive(items[1..])
  {
    assert items == [items[0]] + items[1..];
  }

  // ---------- The two URLs ----------

  /** The address part has no `?`, `#`, tab or line break of its own. */
  predicate CleanBase(base: string) {
    forall i :: 0 <= i < |base| ==> base[i] != '?' && base[i] != '#' && !IsBreak(base[i])
  }

  lemma {:induction false} TrimClean(base: string)
    requires CleanBase(base)
    ensures CleanBase(TrimEnd(base, '/'))
  {
    if base != "" && base[|base| - 1] == '/' { TrimClean(base[..|base| - 1]); }
  }

  lemma UrlRead(address: string, query: string)
    requires CleanBase(address)
    ensures ReadUrl(address + "?" + query) == (address, ReadQuery(query))
  {
    var tail := "?" + query;
    assert address + "?" + query == address + tail;
    StripConcat(address, tail);
    StripPlain(address);
    assert tail[1..] == query;
    var t := "?" + StripBreaks(query);
    assert t == StripBreaks(tail) && t[1..] == StripBreaks(query);
    SplitConcat(address, t, '#');
    assert Before(t, '#') == "?" + Before(StripBreaks(query), '#');
    var u := "?" + Before(StripBreaks(query), '#');
    assert u[1..] == Before(StripBreaks(query), '#');
    SplitConcat(address, u, '?');
    assert address + "" == address;
  }

  function RegisterItems(port: nat, nonce: string, username: seq<Byte>, saltB64: string): seq<Item> {
    [Raw("mode", "register"), Raw("nonce", nonce), Raw("callback_port", Decimal(port)), Coded("username", username),
     Raw("prf_salt", B64ToUrlSafe(saltB64)), Raw("credential_ids", "[]")]
  }

  function LoginItems(port: nat, nonce: string, saltB64: string, credentialIds: seq<Byte>): seq<Item> {
    [Raw("mode", "login"), Raw("nonce", nonce), Raw("callback_port", Decimal(port)),
     Raw("prf_salt", B64ToUrlSafe(saltB64)), Coded("credential_ids", credentialIds)]
  }

  lemma LiteralsSurvive(port: nat)
    ensures Survives("register") && Survives("login") && Survives(Decimal(port)) && Survives("[]")
  {
    DecimalDigits(port);
    UnreservedSurvives(Decimal(port));
    UnreservedSurvives("register");
    UnreservedSurvives("login");
    BracketsSurvive();
  }

  lemma UnreservedSurvives(s: string)
    requires SafeText(s)
    ensures Survives(s)
  {
    SafeSurvives(s);
  }

  lemma BracketsSurvive()
    ensures Survives("[]")
  {
    assert Unbroken("[]");
    assert forall i :: 0 <= i < 2 ==> |"[]"[i..]| < 3;
  }

  lemma NamesAreSafe()
    ensures SafeText("mode") && SafeText("nonce") && SafeText("callback_port") && SafeText("username")
    ensures SafeText("prf_salt") && SafeText("credential_ids")
  {
  }

  lemma RegisterItemsSurvive(port: nat, nonce: string, username: seq<Byte>, saltB64: string)
    ensures var items := RegisterItems(port, nonce, username, saltB64);
            && NamesSafe(items) && Printed(items) == RegisterParams(port, nonce, username, saltB64)
            && (RawSurvive(items) <==> Survives(nonce) && Survives(B64ToUrlSafe(saltB64)))
  {
    var items := RegisterItems(port, nonce, username, saltB64);
    NamesAreSafe();
    LiteralsSurvive(port);
    assert items[1].text == nonce && items[4].text == B64ToUrlSafe(saltB64);
  }

  lemma LoginItemsSurvive(port: nat, nonce: string, saltB64: string, credentialIds: seq<Byte>)
    ensures var items := LoginItems(port, nonce, saltB64, credentialIds);
            && NamesSafe(items) && Printed(items) == LoginParams(port, nonce, saltB64, credentialIds)
            && (RawSurvive(items) <==> Survives(nonce) && Survives(B64ToUrlSafe(saltB64)))
  {
    var items := LoginItems(port, nonce, saltB64, credentialIds);
    NamesAreSafe();
    LiteralsSurvive(port);
    assert items[1].text == nonce && items[3].text == B64ToUrlSafe(saltB64);
  }

  lemma UrlReads(base: string, ps: Params)
    requires CleanBase(base)
    ensures ReadUrl(TrimEnd(base, '/') + "/auth?" + PrintQuery(ps)) == (TrimEnd(base, '/') + "/auth", ReadQuery(PrintQuery(ps)))
  {
    TrimClean(base);
    Regroup(TrimEnd(base, '/'), "/auth", "?", "/auth?", PrintQuery(ps));
    UrlRead(TrimEnd(base, '/') + "/auth", PrintQuery(ps));
  }

  lemma Regroup(x: string, a: string, b: string, ab: string, y: string)
    requires ab == a + b
    ensures x + ab + y == x + a + b + y
  {
  }

  /** For any nonce and salt text at all, both printed without encoding, the register URL reads back
      exactly if they survive. The user name may hold anything. */
  lemma RegisterUrlExactly(base: string, port: nat, nonce: string, username: seq<Byte>, saltB64: string)
    requires CleanBase(base)
    ensures ReadUrl(BuildRegisterUrl(base, port, nonce, username, saltB64))
            == (TrimEnd(base, '/') + "/auth", Meanings(RegisterItems(port, nonce, username, saltB64)))
       <==> Survives(nonce) && Survives(B64ToUrlSafe(saltB64))
  {
    RegisterUrlIsPrinted(base, port, nonce, username, saltB64);
    RegisterItemsSurvive(port, nonce, username, saltB64);
    UrlReads(base, RegisterParams(port, nonce, username, saltB64));
    QueryReadsExactly(RegisterItems(port, nonce, username, saltB64));
  }

  /** The same for the login URL; the credential list may hold anything. */
  lemma LoginUrlExactly(base: string, port: nat, nonce: string, saltB64: string, credentialIds: seq<Byte>)
    requires CleanBase(base)
    ensures ReadUrl(BuildLoginUrl(base, port, nonce, saltB64, credentialIds))
            == (TrimEnd(base, '/') + "/auth", Meanings(LoginItems(port, nonce, saltB64, credentialIds)))
       <==> Survives(nonce) && Survives(B64ToUrlSafe(saltB64))
  {
    LoginUrlIsPrinted(base, port, nonce, saltB64, credentialIds);
    LoginItemsSurvive(port, nonce, saltB64, credentialIds);
    UrlReads(base, LoginParams(port, nonce, saltB64, credentialIds));
    QueryReadsExactly(LoginItems(port, nonce, saltB64, credentialIds));
  }

  // ---------- Round trips ----------

  /** The alphabet of URL-safe base64, of which the nonce is made. */
  predicate UrlSafeText(s: string) {
    forall i :: 0 <= i < |s| ==> IsAlnum(s[i]) || s[i] in "-_"
  }

  lemma UrlSafeSurvives(s: string)
    requires UrlSafeText(s)
    ensures Survives(s)
  {
    SafeSurvives(s);
  }

  lemma SaltSurvives(saltB64: string, body: string, pads: nat)
    requires IsPadded(saltB64, body, pads)
    ensures Survives(B64ToUrlSafe(saltB64))
  {
    UrlSafeBody(saltB64, body, pads);
    UrlSafeSurvives(B64ToUrlSafe(saltB64));
  }

  /** Everything put into the register URL is read out of it: the nonce and the bytes of the user name
      as they were, the port, and the salt after undoing its URL-safe form. */
  lemma RegisterUrlRoundTrip(base: string, port: nat, nonce: string, username: seq<Byte>, saltB64: string,
                             body: string, pads: nat)
    requires CleanBase(base) && UrlSafeText(nonce) && IsPadded(saltB64, body, pads)
    ensures var (address, ps) := ReadUrl(BuildRegisterUrl(base, port, nonce, username, saltB64));
            && address == TrimEnd(base, '/') + "/auth" && |ps| == 6
            && ps[0] == ("mode", "register") && ps[1] == ("nonce", nonce)
            && ps[2].0 == "callback_port" && ParseDecimal(ps[2].1) == port
            && ps[3] == ("username", AsText(username))
            && ps[4].0 == "prf_salt" && FromUrlSafe(ps[4].1) == saltB64
            && ps[5] == ("credential_ids", "[]")
  {
    UrlSafeSurvives(nonce);
    SaltSurvives(saltB64, body, pads);
    RegisterUrlExactly(base, port, nonce, username, saltB64);
    RegisterMeanings(port, nonce, username, saltB64);
    DecimalRoundTrip(port);
    UrlSafeRoundTrip(saltB64, body, pads);
  }

  lemma RegisterMeanings(port: nat, nonce: string, username: seq<Byte>, saltB64: string)
    ensures Meanings(RegisterItems(port, nonce, username, saltB64))
         == [("mode", "register"), ("nonce", nonce), ("callback_port", Decimal(port)), ("username", AsText(username)),
             ("prf_salt", B64ToUrlSafe(saltB64)), ("credential_ids", "[]")]
  {
  }

  /** The same for the login URL. */
  lemma LoginUrlRoundTrip(base: string, port: nat, nonce: string, saltB64: string, credentialIds: seq<Byte>,
                          body: string, pads: nat)
    requires CleanBase(base) && UrlSafeText(nonce) && IsPadded(saltB64, body, pads)
    ensures var (address, ps) := ReadUrl(BuildLoginUrl(base, port, nonce, saltB64, credentialIds));
            && address == TrimEnd(base, '/') + "/auth" && |ps| == 5
            && ps[0] == ("mode", "login") && ps[1] == ("nonce", nonce)
            && ps[2].0 == "callback_port" && ParseDecimal(ps[2].1) == port
            && ps[3].0 == "prf_salt" && FromUrlSafe(ps[3].1) == saltB64
            && ps[4] == ("credential_ids", AsText(credentialIds))
  {
    UrlSafeSurvives(nonce);
    SaltSurvives(saltB64, body, pads);
    LoginUrlExactly(base, port, nonce, saltB64, credentialIds);
    LoginMeanings(port, nonce, saltB64, credentialIds);
    DecimalRoundTrip(port);
    UrlSafeRoundTrip(saltB64, body, pads);
  }

  lemma LoginMeanings(port: nat, nonce: string, saltB64: string, credentialIds: seq<Byte>)
    ensures Meanings(LoginItems(port, nonce, saltB64, credentialIds))
         == [("mode", "login"), ("nonce", nonce), ("callback_port", Decimal(port)), ("prf_salt", B64ToUrlSafe(saltB64)),
             ("credential_ids", AsText(credentialIds))]
  {
  }
}
