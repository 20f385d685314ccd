/** The URL that starts browser authentication: percent-encoding, URL-safe base64, and the query they
    are printed into. Sections 2.1 and 2.3 of RFC 3986; sections 4 and 5 of RFC 4648. */
module AuthUrl {
  import opened Common

  // ---------- Percent-encoding ----------

  predicate IsAlnum(c: char) {
    'A' <= c <= 'Z' || 'a' <= c <= 'z' || '0' <= c <= '9'
  }

  /** Section 2.3 of RFC 3986. */
  predicate IsUnreserved(c: char) {
    IsAlnum(c) || c == '-' || c == '_' || c == '.' || c == '~'
  }

  const HEX: string := "0123456789ABCDEF"

  function EncodeByte(b: Byte): string {
    if IsUnreserved(b as char) then [b as char] else ['%', HEX[b / 16], HEX[b % 16]]
  }

  function UrlEncode(s: seq<Byte>): string {
    if s == [] then "" else EncodeByte(s[0]) + UrlEncode(s[1..])
  }

  lemma {:induction false} UrlEncodeAppend(s: seq<Byte>, b: Byte)
    ensures UrlEncode(s + [b]) == UrlEncode(s) + EncodeByte(b)
  {
    if s == [] {
      assert s + [b] == [b] && [b][1..] == [];
    } else {
      assert (s + [b])[1..] == s[1..] + [b];
      UrlEncodeAppend(s[1..], b);
    }
  }

  /** `urlencoding`: byte by byte onto a growing string. */
  method UrlEncoding(s: seq<Byte>) returns (result: string)
    ensures result == UrlEncode(s)
  {
    result := "";
    for i := 0 to |s|
      invariant result == UrlEncode(s[..i])
    {
      var b := s[i];
      if IsUnreserved(b as char) {
        result := result + [b as char];
      } else {
        result := result + ['%', HEX[b / 16], HEX[b % 16]];
      }
      UrlEncodeAppend(s[..i], b);
      assert s[..i + 1] == s[..i] + [b];
    }
    assert s[..|s|] == s;
  }

  function HexValue(c: char): Option<int> {
    if '0' <= c <= '9' then Some(c as int - '0' as int)
    else if 'A' <= c <= 'F' then Some(c as int - 'A' as int + 10)
    else if 'a' <= c <= 'f' then Some(c as int - 'a' as int + 10)
    else None
  }

  predicate IsTriplet(t: string) {
    |t| >= 3 && t[0] == '%' && HexValue(t[1]).Some? && HexValue(t[2]).Some?
  }

  /** How a form decoder reads a value: `%XX` in either case is a byte, `+` a space, and everything
      else, a stray `%` included, stands for itself. A byte is one character here. */
  function UrlDecode(t: string): string
    decreases |t|
  {
    if t == "" then ""
    else if IsTriplet(t) then [(HexValue(t[1]).value * 16 + HexValue(t[2]).value) as char] + UrlDecode(t[3..])
    else [if t[0] == '+' then ' ' else t[0]] + UrlDecode(t[1..])
  }

  function AsText(s: seq<Byte>): (t: string)
    ensures |t| == |s|
  {
    seq(|s|, i requires 0 <= i < |s| => s[i] as char)
  }

  lemma DecodeByte(b: Byte, rest: string)
    ensures UrlDecode(EncodeByte(b) + rest) == [b as char] + UrlDecode(rest)
  {
    var t, e := EncodeByte(b) + rest, EncodeByte(b);
    assert t[|e|..] == rest;
    HexDigits(b / 16);
    HexDigits(b % 16);
  }

  lemma {:induction false} DecodeEncode(s: seq<Byte>)
    ensures UrlDecode(UrlEncode(s)) == AsText(s)
  {
    if s != [] {
      DecodeEncode(s[1..]);
      DecodeByte(s[0], UrlEncode(s[1..]));
      assert AsText(s) == [s[0] as char] + AsText(s[1..]);
    }
  }

  lemma HexDigits(d: int)
    requires 0 <= d < 16
    ensures HexValue(HEX[d]) == Some(d)
  {
  }

  lemma AsTextInjective(s: seq<Byte>, t: seq<Byte>)
    requires AsText(s) == AsText(t)
    ensures s == t
  {
    assert |s| == |t| by { assert |AsText(s)| == |s| && |AsText(t)| == |t|; }
    forall i | 0 <= i < |s| ensures s[i] == t[i] {
      assert s[i] == AsText(s)[i] as int && t[i] == AsText(t)[i] as int;
    }
  }

  /** Different texts have different encodings. */
  lemma UrlEncodeInjective(s: seq<Byte>, t: seq<Byte>)
    requires UrlEncode(s) == UrlEncode(t)
    ensures s == t
  {
    DecodeEncode(s);
    DecodeEncode(t);
    AsTextInjective(s, t);
  }

  /** The letters, digits, `-`, `.`, `_` and `~` of section 2.3 of RFC 3986, by their codes. */
  predicate UnreservedCode(n: int) {
    65 <= n <= 90 || 97 <= n <= 122 || 48 <= n <= 57 || n == 45 || n == 46 || n == 95 || n == 126
  }

  predicate UpperHexCode(n: int) {
    48 <= n <= 57 || 65 <= n <= 70
  }

  /** Unreserved characters and `%XX` with upper-case digits, nothing else. */
  predicate IsEncoded(t: string)
    decreases |t|
  {
    t == "" || (
      if t[0] == '%' then |t| >= 3 && UpperHexCode(t[1] as int) && UpperHexCode(t[2] as int) && IsEncoded(t[3..])
      else UnreservedCode(t[0] as int) && IsEncoded(t[1..]))
  }

  lemma UpperHex(d: int)
    requires 0 <= d < 16
    ensures UpperHexCode(HEX[d] as int)
  {
  }

  lemma EncodedByteForm(b: Byte, rest: string)
    requires IsEncoded(rest)
    ensures IsEncoded(EncodeByte(b) + rest)
    ensures EncodeByte(b) == [b as char] <==> UnreservedCode(b)
  {
    var e := EncodeByte(b);
    assert (e + rest)[|e|..] == rest;
    UpperHex(b / 16);
    UpperHex(b % 16);
  }

  lemma {:induction false} EncodedForm(s: seq<Byte>)
    ensures IsEncoded(UrlEncode(s))
  {
    if s != [] {
      EncodedForm(s[1..]);
      EncodedByteForm(s[0], UrlEncode(s[1..]));
    }
  }

  /** A text stands for itself exactly if every character is unreserved. */
  lemma {:induction false} UnencodedExactly(s: seq<Byte>)
    ensures |UrlEncode(s)| >= |s|
    ensures UrlEncode(s) == AsText(s) <==> forall i :: 0 <= i < |s| ==> UnreservedCode(s[i])
  {
    if s != [] {
      UnencodedExactly(s[1..]);
      SameAfterByte(s[0], UrlEncode(s[1..]), AsText(s[1..]));
      assert AsText(s) == [s[0] as char] + AsText(s[1..]);
      FirstAndRest(s);
    }
  }

  lemma SameAfterByte(b: Byte, rest: string, text: string)
    requires |rest| >= |text|
    ensures EncodeByte(b) + rest == [b as char] + text <==> UnreservedCode(b) && rest == text
    ensures |EncodeByte(b)| >= 1
  {
    var e := EncodeByte(b);
    if UnreservedCode(b) {
      assert e == [b as char];
      assert (e + rest)[1..] == rest && ([b as char] + text)[1..] == text;
    } else {
      assert |e| == 3;
    }
  }

  lemma FirstAndRest(s: seq<Byte>)
    requires s != []
    ensures (forall i :: 0 <= i < |s| ==> UnreservedCode(s[i])) <==>
              UnreservedCode(s[0]) && forall i :: 0 <= i < |s| - 1 ==> UnreservedCode(s[1..][i])
  {
    assert forall i :: 0 < i < |s| ==> s[i] == s[1..][i - 1];
  }

  // ---------- URL-safe base64 ----------

  predicate IsBase64(c: char) {
    IsAlnum(c) || c == '+' || c == '/'
  }

  function Replace(s: string, from: char, to: char): (r: string)
    ensures |r| == |s|
  {
    seq(|s|, i requires 0 <= i < |s| => if s[i] == from then to else s[i])
  }

  function TrimEnd(s: string, c: char): string {
    if s != "" && s[|s| - 1] == c then TrimEnd(s[..|s| - 1], c) else s
  }

  /** `b64_to_urlsafe`. */
  function B64ToUrlSafe(s: string): string {
    TrimEnd(Replace(Replace(s, '+', '-'), '/', '_'), '=')
  }

  function Pad(n: nat): string {
    seq(n, _ => '=')
  }

  function FromUrlSafe(t: string): string {
    var body := Replace(Replace(t, '-', '+'), '_', '/');
    body + Pad((4 - |body| % 4) % 4)
  }

  /** Section 4 of RFC 4648: whole groups of four, the last with at most two pads. */
  predicate IsPadded(s: string, body: string, pads: nat) {
    s == body + Pad(pads) && |s| % 4 == 0 && pads <= 2 && forall i :: 0 <= i < |body| ==> IsBase64(body[i])
  }

  lemma {:induction false} TrimPads(s: string, n: nat)
    requires s == "" || s[|s| - 1] != '='
    ensures TrimEnd(s + Pad(n), '=') == s
    decreases n
  {
    if n == 0 {
      assert s + Pad(0) == s;
    } else {
      assert (s + Pad(n))[..|s| + n - 1] == s + Pad(n - 1);
      TrimPads(s, n - 1);
    }
  }

  lemma UrlSafeBody(s: string, body: string, pads: nat)
    requires IsPadded(s, body, pads)
    ensures B64ToUrlSafe(s) == Replace(Replace(body, '+', '-'), '/', '_')
    ensures forall i :: 0 <= i < |body| ==> IsAlnum(B64ToUrlSafe(s)[i]) || B64ToUrlSafe(s)[i] in "-_"
  {
    var safe := Replace(Replace(body, '+', '-'), '/', '_');
    assert Replace(Replace(s, '+', '-'), '/', '_') == safe + Pad(pads);
    TrimPads(safe, pads);
  }

  /** The salt survives the trip, padding included. */
  lemma UrlSafeRoundTrip(s: string, body: string, pads: nat)
    requires IsPadded(s, body, pads)
    ensures FromUrlSafe(B64ToUrlSafe(s)) == s
  {
    UrlSafeBody(s, body, pads);
    var back := Replace(Replace(B64ToUrlSafe(s), '-', '+'), '_', '/');
    assert back == body;
    assert (4 - |body| % 4) % 4 == pads;
  }

  // ---------- Query strings ----------

  type Params = seq<(string, string)>

  function Pair(p: (string, string)): string {
    p.0 + "=" + p.1
  }

  function PrintQuery(ps: Params): string {
    if ps == [] then "" else if |ps| == 1 then Pair(ps[0]) else Pair(ps[0]) + "&" + PrintQuery(ps[1..])
  }

  // ---------- The two URLs ----------

  function Decimal(n: nat): string {
    if n < 10 then [HEX[n]] else Decimal(n / 10) + [HEX[n % 10]]
  }

  function ParseDecimal(s: string): nat {
    if s == "" then 0
    else ParseDecimal(s[..|s| - 1]) * 10
         + (var d := s[|s| - 1]; if '0' <= d <= '9' then d as int - '0' as int else 0)
  }

  lemma {:induction false} DecimalDigits(n: nat)
    ensures forall i :: 0 <= i < |Decimal(n)| ==> '0' <= Decimal(n)[i] <= '9'
  {
    if n >= 10 { DecimalDigits(n / 10); }
  }

  lemma {:induction false} DecimalRoundTrip(n: nat)
    ensures ParseDecimal(Decimal(n)) == n
  {
    var s := Decimal(n);
    if n >= 10 {
      DecimalRoundTrip(n / 10);
      assert s[..|s| - 1] == Decimal(n / 10) && s[|s| - 1] == HEX[n % 10];
    } else {
      assert s[..0] == "" && ParseDecimal("") == 0;
    }
  }

  /** One further parameter. */
  function Param(k: string, v: string): string {
    "&" + Pair((k, v))
  }

  /** `build_register_url`; `port` is a 16-bit number. */
  function BuildRegisterUrl(base: string, port: nat, nonce: string, username: seq<Byte>, saltB64: string): string {
    TrimEnd(base, '/') + "/auth?mode=register" + Param("nonce", nonce) + Param("callback_port", Decimal(port))
    + Param("username", UrlEncode(username)) + Param("prf_salt", B64ToUrlSafe(saltB64)) + Param("credential_ids", "[]")
  }

  /** `build_login_url`, given the credential list as JSON text. */
  function BuildLoginUrl(base: string, port: nat, nonce: string, saltB64: string, credentialIds: seq<Byte>): string {
    TrimEnd(base, '/') + "/auth?mode=login" + Param("nonce", nonce) + Param("callback_port", Decimal(port))
    + Param("prf_salt", B64ToUrlSafe(saltB64)) + Param("credential_ids", UrlEncode(credentialIds))
  }

  function RegisterParams(port: nat, nonce: string, username: seq<Byte>, saltB64: string): Params {
    [("mode", "register"), ("nonce", nonce), ("callback_port", Decimal(port)), ("username", UrlEncode(username)),
     ("prf_salt", B64ToUrlSafe(saltB64)), ("credential_ids", "[]")]
  }

  function LoginParams(port: nat, nonce: string, saltB64: string, credentialIds: seq<Byte>): Params {
    [("mode", "login"), ("nonce", nonce), ("callback_port", Decimal(port)), ("prf_salt", B64ToUrlSafe(saltB64)),
     ("credential_ids", UrlEncode(credentialIds))]
  }

  /** The parameters one after the other. */
  function Append(x: string, ps: Params): string
    decreases |ps|
  {
    if ps == [] then x else Append(x + Param(ps[0].0, ps[0].1), ps[1..])
  }

  lemma {:induction false} AppendIsPrint(x: string, ps: Params)
    requires ps != []
    ensures Append(x, ps) == x + "&" + PrintQuery(ps)
    decreases |ps|
  {
    if |ps| == 1 {
      assert Append(x + Param(ps[0].0, ps[0].1), ps[1..]) == x + Param(ps[0].0, ps[0].1);
    } else {
      AppendIsPrint(x + Param(ps[0].0, ps[0].1), ps[1..]);
    }
  }

  lemma AppendOne(x: string, k: string, v: string, ps: Params)
    ensures Append(x, [(k, v)] + ps) == Append(x + Param(k, v), ps)
  {
    assert ([(k, v)] + ps)[1..] == ps;
  }

  lemma Start(base: string, mode: string, lit: string, ps: Params)
    requires lit == "/auth?mode=" + mode && ps != []
    ensures Append(base + lit, ps) == base + "/auth?" + PrintQuery([("mode", mode)] + ps)
  {
    AppendIsPrint(base + lit, ps);
    assert ([("mode", mode)] + ps)[1..] == ps;
    assert lit == "/auth?" + Pair(("mode", mode));
  }

  lemma RegisterPrinted(x: string, nonce: string, port: string, user: string, salt: string, ids: string)
    ensures x + Param("nonce", nonce) + Param("callback_port", port) + Param("username", user)
            + Param("prf_salt", salt) + Param("credential_ids", ids)
         == Append(x, [("nonce", nonce)] + ([("callback_port", port)] + ([("username", user)] + ([("prf_salt", salt)]
              + [("credential_ids", ids)]))))
  {
    var p5 := [("credential_ids", ids)];
    var p4 := [("prf_salt", salt)] + p5;
    var p3 := [("username", user)] + p4;
    var p2 := [("callback_port", port)] + p3;
    var x1 := x + Param("nonce", nonce);
    var x2 := x1 + Param("callback_port", port);
    var x3 := x2 + Param("username", user);
    AppendOne(x, "nonce", nonce, p2);
    AppendOne(x1, "callback_port", port, p3);
    AppendOne(x2, "username", user, p4);
    AppendOne(x3, "prf_salt", salt, p5);
  }

  lemma LoginPrinted(x: string, nonce: string, port: string, salt: string, ids: string)
    ensures x + Param("nonce", nonce) + Param("callback_port", port) + Param("prf_salt", salt)
            + Param("credential_ids", ids)
         == Append(x, [("nonce", nonce)] + ([("callback_port", port)] + ([("prf_salt", salt)] + [("credential_ids", ids)])))
  {
    var p4 := [("credential_ids", ids)];
    var p3 := [("prf_salt", salt)] + p4;
    var p2 := [("callback_port", port)] + p3;
    var x1 := x + Param("nonce", nonce);
    AppendOne(x, "nonce", nonce, p2);
    AppendOne(x1, "callback_port", port, p3);
    AppendOne(x1 + Param("callback_port", port), "prf_salt", salt, p4);
  }

  /** The built text is the printed parameter list. */
  lemma RegisterUrlIsPrinted(base: string, port: nat, nonce: string, username: seq<Byte>, saltB64: string)
    ensures BuildRegisterUrl(base, port, nonce, username, saltB64)
         == TrimEnd(base, '/') + "/auth?" + PrintQuery(RegisterParams(port, nonce, username, saltB64))
  {
    var b, ps := TrimEnd(base, '/'), RegisterParams(port, nonce, username, saltB64);
    RegisterPrinted(b + "/auth?mode=register", nonce, ps[2].1, ps[3].1, ps[4].1, "[]");
    var rest := [("nonce", nonce)] + ([("callback_port", ps[2].1)] + ([("username", ps[3].1)] + ([("prf_salt", ps[4].1)]
                + [("credential_ids", "[]")])));
    Start(b, "register", "/auth?mode=register", rest);
    assert ps == [("mode", "register")] + rest;
  }

  lemma LoginUrlIsPrinted(base: string, port: nat, nonce: string, saltB64: string, credentialIds: seq<Byte>)
    ensures BuildLoginUrl(base, port, nonce, saltB64, credentialIds)
         == TrimEnd(base, '/') + "/auth?" + PrintQuery(LoginParams(port, nonce, saltB64, credentialIds))
  {
    var b, ps := TrimEnd(base, '/'), LoginParams(port, nonce, saltB64, credentialIds);
    LoginPrinted(b + "/auth?mode=login", nonce, ps[2].1, ps[3].1, ps[4].1);
    var rest := [("nonce", nonce)] + ([("callback_port", ps[2].1)] + ([("prf_salt", ps[3].1)]
                + [("credential_ids", ps[4].1)]));
    Start(b, "login", "/auth?mode=login", rest);
    assert ps == [("mode", "login")] + rest;
  }
}
