/** The bearer-token verifier: split, decode, check algorithm, signature (RFC 7515 section 5.2) and claims
    (RFC 7519 section 7.2). JSON parsing and HMAC are parameters; a JSON accessor applied to a value of the
    wrong kind throws, which the verifier does not catch. */
module Jwt {
  import opened Common
  import opened Base64Url
  import opened Decimal

  // ---------- Splitting ----------

  /** Completed parts and the part being built, after reading s. */
  function Parts(s: string, ch: char): (seq<string>, string) {
    if s == "" then ([], "")
    else
      var (parts, current) := Parts(s[..|s| - 1], ch);
      if s[|s| - 1] == ch then (parts + [current], "") else (parts, current + [s[|s| - 1]])
  }

  function SplitAt(s: string, ch: char): seq<string> {
    Parts(s, ch).0 + [Parts(s, ch).1]
  }

  method Split(s: string, ch: char) returns (parts: seq<string>)
    ensures parts == SplitAt(s, ch)
  {
    parts := [];
    var current := "";
    for i := 0 to |s|
      invariant (parts, current) == Parts(s[..i], ch)
    {
      assert s[..i + 1][..i] == s[..i];
      if s[i] == ch {
        parts := parts + [current];
        current := "";
      } else {
        current := current + [s[i]];
      }
    }
    assert s[..|s|] == s;
    parts := parts + [current];
  }

  function Join(parts: seq<string>, ch: char): string {
    if parts == [] then ""
    else if |parts| == 1 then parts[0]
    else Join(parts[..|parts| - 1], ch) + [ch] + parts[|parts| - 1]
  }

  lemma {:induction false} JoinSplit(s: string, ch: char)
    ensures Join(SplitAt(s, ch), ch) == s
    ensures forall p | p in SplitAt(s, ch) :: ch !in p
  {
    if s != "" {
      var init := s[..|s| - 1];
      JoinSplit(init, ch);
      var (parts, current) := Parts(init, ch);
      assert (parts + [current])[..|parts|] == parts;
      if s[|s| - 1] == ch {
        assert (parts + [current] + [""])[..|parts| + 1] == parts + [current];
        assert SplitAt(s, ch) == parts + [current] + [""];
      } else {
        assert (parts + [current + [s[|s| - 1]]])[..|parts|] == parts;
        assert SplitAt(s, ch) == parts + [current + [s[|s| - 1]]];
      }
      assert current in SplitAt(init, ch);
    }
  }

  lemma {:induction false} PartsExtend(s: string, t: string, ch: char)
    requires ch !in t
    ensures Parts(s + t, ch) == (Parts(s, ch).0, Parts(s, ch).1 + t)
  {
    if t == "" {
      assert s + t == s && Parts(s, ch).1 + t == Parts(s, ch).1;
    } else {
      assert (s + t)[..|s + t| - 1] == s + t[..|t| - 1];
      PartsExtend(s, t[..|t| - 1], ch);
      assert t[|t| - 1] in t;
      assert (s + t)[|s + t| - 1] == t[|t| - 1];
      assert Parts(s, ch).1 + t == Parts(s, ch).1 + t[..|t| - 1] + [t[|t| - 1]];
      assert t == t[..|t| - 1] + [t[|t| - 1]];
    }
  }

  lemma PartsSeparate(s: string, ch: char)
    ensures Parts(s + [ch], ch) == (Parts(s, ch).0 + [Parts(s, ch).1], "")
  {
    assert (s + [ch])[..|s|] == s;
  }

  /** Three dot-free parts, none empty, joined by dots. */
  predicate IsToken(token: string, h: string, p: string, s: string) {
    && token == h + "." + p + "." + s
    && h != "" && p != "" && s != "" && '.' !in h && '.' !in p && '.' !in s
  }

  lemma SplitToken(token: string, h: string, p: string, s: string)
    requires token == h + "." + p + "." + s && '.' !in h && '.' !in p && '.' !in s
    ensures SplitAt(token, '.') == [h, p, s]
  {
    assert "" + h == h && "" + p == p && "" + s == s;
    PartsExtend("", h, '.');
    assert Parts(h, '.') == ([], h);
    PartsSeparate(h, '.');
    assert h + ['.'] == h + "." && [] + [h] == [h];
    assert Parts(h + ".", '.') == ([h], "");
    PartsExtend(h + ".", p, '.');
    PartsSeparate(h + "." + p, '.');
    assert h + "." + p + ['.'] == h + "." + p + "." && [h] + [p] == [h, p];
    assert Parts(h + "." + p + ".", '.') == ([h, p], "");
    PartsExtend(h + "." + p + ".", s, '.');
  }

  lemma ThreeParts(token: string)
    requires |SplitAt(token, '.')| == 3
    ensures var q := SplitAt(token, '.'); token == q[0] + "." + q[1] + "." + q[2] && '.' !in q[0] && '.' !in q[1] && '.' !in q[2]
  {
    JoinSplit(token, '.');
    var q := SplitAt(token, '.');
    assert q[..2][..1] == [q[0]];
    assert Join(q[..2], '.') == q[0] + "." + q[1];
  }

  /** Splitting finds the three parts of a token, and only of a token. */
  lemma TokenIffThreeParts(token: string)
    ensures forall h, p, s :: IsToken(token, h, p, s) <==> SplitAt(token, '.') == [h, p, s] && h != "" && p != "" && s != ""
  {
    forall h, p, s ensures IsToken(token, h, p, s) <==> SplitAt(token, '.') == [h, p, s] && h != "" && p != "" && s != "" {
      if IsToken(token, h, p, s) {
        SplitToken(token, h, p, s);
      } else if SplitAt(token, '.') == [h, p, s] {
        ThreeParts(token);
      }
    }
  }

  // ---------- strtoull ----------

  /** The C locale's white space. */
  predicate IsSpace(c: char)
    ensures IsSpace(c) <==> c as int == 32 || c as int == 9 || c as int == 10 || c as int == 11 || c as int == 12 || c as int == 13
  {
    c == ' ' || 9 as char <= c <= 13 as char
  }

  function SkipSpace(s: string): string {
    if s != "" && IsSpace(s[0]) then SkipSpace(s[1..]) else s
  }

  function DigitRun(s: string): (n: nat)
    ensures n <= |s| && AllDigits(s[..n])
  {
    if s != "" && '0' <= s[0] <= '9' then 1 + DigitRun(s[1..]) else 0
  }

  /** The characters before the first NUL, which is what c_str shows a C function. */
  function CString(s: string): string {
    if s == "" || s[0] == 0 as char then "" else [s[0]] + CString(s[1..])
  }

  /** The digits after space and sign: they must run to the end, a magnitude beyond 64 bits saturates, and a
      minus negates modulo 2^64. */
  function ReadDigits(digits: string, negative: bool): Option<nat> {
    var n := DigitRun(digits);
    if n == 0 || n < |digits| then None
    else
      var v := Value(digits[..n]);
      if v >= TWO_POW_64 then Some(TWO_POW_64 - 1)
      else if negative then Some((TWO_POW_64 - v) % TWO_POW_64)
      else Some(v)
  }

  /** strtoull in base 10 consuming the whole C string: leading space and a sign are allowed. Without digits
      nothing is consumed, which is the whole of the empty string. */
  function StrToULL(s: string): Option<nat> {
    var t := SkipSpace(s);
    var signed := t != "" && (t[0] == '-' || t[0] == '+');
    if s == "" then Some(0) else ReadDigits(if signed then t[1..] else t, signed && t[0] == '-')
  }

  function ParseUInt64(s: string): Option<nat> {
    if s == "" then None else StrToULL(CString(s))
  }

  /** A numeral as strtoull reads it: leading space, an optional sign, and at least one digit. */
  datatype Numeral = Numeral(space: string, sign: string, digits: string)

  predicate WellFormed(n: Numeral) {
    && (forall c | c in n.space :: IsSpace(c))
    && (n.sign == "" || n.sign == "+" || n.sign == "-")
    && n.digits != "" && AllDigits(n.digits)
  }

  function Text(n: Numeral): string {
    n.space + n.sign + n.digits
  }

  /** Saturated at 64 bits, else negated modulo 2^64 under a minus. */
  function Meaning(n: Numeral): nat
    requires WellFormed(n)
  {
    var v := Value(n.digits);
    if v >= TWO_POW_64 then TWO_POW_64 - 1
    else if n.sign == "-" then (TWO_POW_64 - v) % TWO_POW_64
    else v
  }

  lemma {:induction false} SkipsExactly(space: string, rest: string)
    requires (forall c | c in space :: IsSpace(c)) && (rest != "" ==> !IsSpace(rest[0]))
    ensures SkipSpace(space + rest) == rest
  {
    if space == "" {
      assert space + rest == rest;
    } else {
      assert space[0] in space && (space + rest)[1..] == space[1..] + rest;
      SkipsExactly(space[1..], rest);
    }
  }

  lemma {:induction false} SkippedSpace(s: string) returns (space: string)
    ensures s == space + SkipSpace(s) && forall c | c in space :: IsSpace(c)
  {
    if s != "" && IsSpace(s[0]) {
      var more := SkippedSpace(s[1..]);
      space := [s[0]] + more;
    } else {
      space := "";
    }
  }

  lemma {:induction false} WholeDigits(s: string)
    ensures DigitRun(s) == |s| <==> AllDigits(s)
  {
    if s != "" {
      WholeDigits(s[1..]);
      assert AllDigits(s) ==> AllDigits(s[1..]);
      assert DigitRun(s) == |s| ==> s[..|s|] == s;
    }
  }

  lemma ReadsDigits(d: string, negative: bool)
    ensures ReadDigits(d, negative).Some? <==> d != "" && AllDigits(d)
    ensures d != "" && AllDigits(d) ==>
              var v := Value(d);
              ReadDigits(d, negative) == Some(if v >= TWO_POW_64 then TWO_POW_64 - 1
                                              else if negative then (TWO_POW_64 - v) % TWO_POW_64 else v)
  {
    WholeDigits(d);
    assert d[..|d|] == d;
  }

  lemma NumeralParses(n: Numeral)
    requires WellFormed(n)
    ensures StrToULL(Text(n)) == Some(Meaning(n)) && Text(n) != ""
  {
    var rest := n.sign + n.digits;
    assert Text(n) == n.space + rest;
    assert rest[0] == if n.sign == "" then n.digits[0] else n.sign[0];
    SkipsExactly(n.space, rest);
    assert n.sign == "" ==> rest == n.digits;
    assert n.sign != "" ==> rest[1..] == n.digits;
    ReadsDigits(n.digits, n.sign == "-");
  }

  lemma SignedText(n: Numeral, t: string)
    requires t == n.sign + n.digits
    ensures Text(n) == n.space + t
  {
  }

  lemma ParsedIsNumeral(s: string) returns (n: Numeral)
    requires StrToULL(s).Some? && s != ""
    ensures WellFormed(n) && s == Text(n)
  {
    var space := SkippedSpace(s);
    var t := SkipSpace(s);
    if t != "" && (t[0] == '-' || t[0] == '+') {
      n := Numeral(space, t[..1], t[1..]);
      ReadsDigits(t[1..], t[0] == '-');
    } else {
      n := Numeral(space, "", t);
      ReadsDigits(t, false);
    }
    SignedText(n, t);
  }

  /** The part of a string before its first NUL. */
  lemma {:induction false} CStringIff(s: string, t: string)
    ensures CString(s) == t <==> 0 as char !in t && (s == t || t + [0 as char] <= s)
  {
    if s != "" && s[0] != 0 as char && t != "" {
      CStringIff(s[1..], t[1..]);
      assert s == [s[0]] + s[1..] && t == [t[0]] + t[1..];
      assert t + [0 as char] <= s <==> t[0] == s[0] && t[1..] + [0 as char] <= s[1..];
    }
  }

  /** Exactly which strings parse, and to what: those that up to their first NUL are a numeral, to its
      meaning, and those that begin with a NUL, to 0. */
  lemma ParseIff(s: string, v: nat)
    ensures ParseUInt64(s) == Some(v)
       <==> s != "" && ((CString(s) == "" && v == 0) || exists n :: WellFormed(n) && CString(s) == Text(n) && v == Meaning(n))
  {
    if s != "" {
      var c := CString(s);
      if n :| WellFormed(n) && c == Text(n) && v == Meaning(n) {
        NumeralParses(n);
      }
      if c != "" && StrToULL(c) == Some(v) {
        var n := ParsedIsNumeral(c);
        NumeralParses(n);
        assert WellFormed(n) && c == Text(n) && v == Meaning(n);
      }
    }
  }

  /** A string of digits parses to the number it denotes exactly when that fits 64 bits; a larger one is not
      refused but read as the largest 64-bit number. */
  lemma ParseDigits(s: string)
    requires s != "" && AllDigits(s)
    ensures ParseUInt64(s) == Some(Min(Value(s), TWO_POW_64 - 1))
    ensures ParseUInt64(s) == Some(Value(s)) <==> Value(s) < TWO_POW_64
  {
    var n := Numeral("", "", s);
    NumeralParses(n);
    CStringIff(s, s);
    assert Text(n) == s;
  }

  lemma ParseOfPrint(n: nat)
    requires n < TWO_POW_64
    ensures ParseUInt64(Print(n)) == Some(n)
  {
    ValueOfPrint(n);
    ParseDigits(Print(n));
  }

  // ---------- JSON values ----------

  datatype Json = Null | Bool(b: bool) | Int(n: int) | Str(s: string) | Array | Object(fields: map<string, Json>)

  function Get(fields: map<string, Json>, key: string): Json {
    if key in fields then fields[key] else Null
  }

  /** asString: None when it throws. A missing member reads as the empty string. */
  function AsString(j: Json): Option<string> {
    match j
    case Null => Some("")
    case Bool(b) => Some(if b then "true" else "false")
    case Int(n) => Some(if n < 0 then "-" + Print(-n) else Print(n))
    case Str(s) => Some(s)
    case _ => None
  }

  /** asInt64: None when it throws. A missing member reads as 0. */
  function AsInt64(j: Json): Option<int> {
    match j
    case Null => Some(0)
    case Bool(b) => Some(if b then 1 else 0)
    case Int(n) => if FitsInt64(n) then Some(n) else None
    case _ => None
  }

  /** What the accessors read: a missing member as empty or 0, a boolean as a word or a bit, a string only as a
      string, and a number that does not fit, an array or an object not at all. */
  lemma AccessorsMean(j: Json)
    ensures Get(map[], "m") == Null && Get(map["m" := j], "m") == j
    ensures AsString(Null) == Some("") && AsInt64(Null) == Some(0)
    ensures AsString(Bool(true)) == Some("true") && AsString(Bool(false)) == Some("false")
    ensures AsInt64(Bool(true)) == Some(1) && AsInt64(Bool(false)) == Some(0)
    ensures j.Str? ==> AsString(j) == Some(j.s) && AsInt64(j) == None
    ensures j.Int? ==> AsString(j).Some? && AsInt64(j) == if -0x8000_0000_0000_0000 <= j.n < 0x8000_0000_0000_0000 then Some(j.n) else None
    ensures j.Array? || j.Object? <==> AsString(j) == None
    ensures j.Array? || j.Object? ==> AsInt64(j) == None
  {
  }

  // ---------- Verification ----------

  datatype Config = Config(secret: seq<byte>, issuer: string, skew: int)
  datatype Claims = Claims(userId: nat, deviceId: string, iat: int, exp: int, iss: string, raw: map<string, Json>)
  datatype Reason = Format | Header | Payload | Alg | Hmac | Signature | Issuer | Expired | IssuedAt | Subject
  datatype Outcome = Accepted(claims: Claims) | Rejected(reason: Reason) | Thrown

  type Parser = seq<byte> -> Option<Json>
  type Mac = (seq<byte>, string) -> Option<seq<byte>>

  function Fields(parse: Parser, part: string): Option<map<string, Json>> {
    match parse(DecodeUrl(part))
    case Some(Object(fields)) => Some(fields)
    case _ => None
  }

  predicate SignedBy(cfg: Config, mac: Mac, h: string, p: string, s: string) {
    var digest := mac(cfg.secret, h + "." + p);
    digest.Some? && s == EncodeUrl(digest.value)
  }

  predicate InTime(cfg: Config, now: int, exp: int) {
    0 < exp && now <= exp + cfg.skew
  }

  predicate IssuedInTime(cfg: Config, now: int, iat: int) {
    0 < iat ==> iat <= now + cfg.skew
  }

  /** What it takes for three token parts to grant these claims. */
  predicate Grants(cfg: Config, now: int, parse: Parser, mac: Mac, h: string, p: string, s: string, c: Claims) {
    var header, payload := Fields(parse, h), Fields(parse, p);
    && header.Some? && AsString(Get(header.value, "alg")) == Some("HS256")
    && payload.Some? && payload.value == c.raw
    && SignedBy(cfg, mac, h, p, s)
    && AsString(Get(c.raw, "iss")) == Some(c.iss) && c.iss == cfg.issuer
    && AsInt64(Get(c.raw, "exp")) == Some(c.exp) && InTime(cfg, now, c.exp)
    && AsInt64(Get(c.raw, "iat")) == Some(c.iat) && IssuedInTime(cfg, now, c.iat)
    && (var sub := AsString(Get(c.raw, "sub")); sub.Some? && ParseUInt64(sub.value) == Some(c.userId)) && c.userId != 0
    && AsString(Get(c.raw, "did")) == Some(c.deviceId)
  }

  /** The token is three dot-free non-empty parts that grant these claims. */
  ghost predicate Admits(token: string, cfg: Config, now: int, parse: Parser, mac: Mac, c: Claims) {
    exists h, p, s :: IsToken(token, h, p, s) && Grants(cfg, now, parse, mac, h, p, s, c)
  }

  /** Only the string itself reads as the algorithm's name. */
  lemma ReadsAsHs256(j: Json)
    ensures AsString(j) == Some("HS256") <==> j == Str("HS256")
  {
    assert forall n: int :: AsString(Int(n)).value[0] != 'H';
  }

  /** What the claims of an admitted token are, spelled out on its payload; a JSON boolean reads as 0 or 1. */
  lemma ClaimsMean(cfg: Config, now: int, parse: Parser, mac: Mac, h: string, p: string, s: string, c: Claims)
    requires Grants(cfg, now, parse, mac, h, p, s, c)
    ensures parse(DecodeUrl(p)) == Some(Object(c.raw))
    ensures c.iss == cfg.issuer && 0 < c.exp && now <= c.exp + cfg.skew && (c.iat <= 0 || c.iat <= now + cfg.skew) && c.userId != 0
    ensures "exp" in c.raw && (c.raw["exp"] == Int(c.exp) || (c.raw["exp"] == Bool(true) && c.exp == 1))
    ensures "iat" in c.raw && c.raw["iat"].Int? ==> c.raw["iat"] == Int(c.iat)
    ensures "iat" !in c.raw ==> c.iat == 0
    ensures "sub" in c.raw && (c.raw["sub"].Str? ==> ParseUInt64(c.raw["sub"].s) == Some(c.userId))
    ensures "did" in c.raw && c.raw["did"].Str? ==> c.raw["did"] == Str(c.deviceId)
    ensures "did" !in c.raw ==> c.deviceId == ""
    ensures "iss" in c.raw && c.raw["iss"].Str? ==> c.raw["iss"] == Str(c.iss)
  {
  }

  lemma HeaderMeans(cfg: Config, now: int, parse: Parser, mac: Mac, h: string, p: string, s: string, c: Claims)
    requires Grants(cfg, now, parse, mac, h, p, s, c)
    ensures mac(cfg.secret, h + "." + p).Some? && s == EncodeUrl(mac(cfg.secret, h + "." + p).value)
    ensures var j := parse(DecodeUrl(h)); j.Some? && j.value.Object? && "alg" in j.value.fields && j.value.fields["alg"] == Str("HS256")
  {
    ReadsAsHs256(Get(Fields(parse, h).value, "alg"));
  }

  /** What an admitted token must be: three parts of which the third is the encoded digest of the first two
      under the secret, a header that says HS256, and a payload whose claims carry the configured issuer,
      times inside the skew window and a non-zero user id. */
  lemma AdmittedMeans(token: string, cfg: Config, now: int, parse: Parser, mac: Mac, c: Claims) returns (h: string, p: string, s: string)
    requires Admits(token, cfg, now, parse, mac, c)
    ensures token == h + "." + p + "." + s && '.' !in h && '.' !in p && '.' !in s
    ensures mac(cfg.secret, h + "." + p).Some? && s == EncodeUrl(mac(cfg.secret, h + "." + p).value)
    ensures var j := parse(DecodeUrl(h)); j.Some? && j.value.Object? && "alg" in j.value.fields && j.value.fields["alg"] == Str("HS256")
    ensures parse(DecodeUrl(p)) == Some(Object(c.raw))
    ensures c.iss == cfg.issuer && 0 < c.exp && now <= c.exp + cfg.skew && (c.iat <= 0 || c.iat <= now + cfg.skew) && c.userId != 0
  {
    h, p, s :| IsToken(token, h, p, s) && Grants(cfg, now, parse, mac, h, p, s, c);
    HeaderMeans(cfg, now, parse, mac, h, p, s, c);
    ClaimsMean(cfg, now, parse, mac, h, p, s, c);
  }

  lemma SplitOnce(h: string, p: string, s: string, h': string, p': string, s': string)
    requires h + "." + p + "." + s == h' + "." + p' + "." + s'
    requires '.' !in h && '.' !in p && '.' !in s && '.' !in h' && '.' !in p' && '.' !in s'
    ensures h == h' && p == p' && s == s'
  {
    var token := h + "." + p + "." + s;
    SplitToken(token, h, p, s);
    SplitToken(token, h', p', s');
    var parts := SplitAt(token, '.');
    assert parts[0] == h && parts[1] == p && parts[2] == s;
  }

  lemma ForgedGrantsNothing(h: string, p: string, s: string, cfg: Config, now: int, parse: Parser, mac: Mac, c: Claims)
    requires '.' !in h && '.' !in p && '.' !in s
    requires forall d :: mac(cfg.secret, h + "." + p) == Some(d) ==> s != EncodeUrl(d)
    ensures !Admits(h + "." + p + "." + s, cfg, now, parse, mac, c)
  {
    forall h', p', s' | IsToken(h + "." + p + "." + s, h', p', s') ensures !Grants(cfg, now, parse, mac, h', p', s', c) {
      SplitOnce(h, p, s, h', p', s');
      if Grants(cfg, now, parse, mac, h', p', s', c) {
        HeaderMeans(cfg, now, parse, mac, h', p', s', c);
      }
    }
  }

  /** A token whose third part is any text but the encoded digest of the first two is not accepted. */
  method ForgedIsRejected(h: string, p: string, s: string, cfg: Config, now: int, parse: Parser, mac: Mac) returns (r: Outcome)
    requires '.' !in h && '.' !in p && '.' !in s
    requires forall d :: mac(cfg.secret, h + "." + p) == Some(d) ==> s != EncodeUrl(d)
    ensures !r.Accepted?
  {
    r := Verify(h + "." + p + "." + s, cfg, now, parse, mac);
    forall c ensures !Admits(h + "." + p + "." + s, cfg, now, parse, mac, c) {
      ForgedGrantsNothing(h, p, s, cfg, now, parse, mac, c);
    }
  }

  lemma AdmittedUser(token: string, cfg: Config, now: int, parse: Parser, mac: Mac, c: Claims)
    requires Admits(token, cfg, now, parse, mac, c)
    ensures c.userId != 0 && token != ""
  {
  }

  /** Which requirement a rejection reports as broken. */
  predicate Breaks(reason: Reason, cfg: Config, now: int, parse: Parser, mac: Mac, h: string, p: string, s: string) {
    var header, payload := Fields(parse, h), Fields(parse, p);
    match reason
    case Format => false
    case Header => header.None?
    case Payload => payload.None?
    case Alg => header.Some? && AsString(Get(header.value, "alg")) != Some("HS256")
    case Hmac => mac(cfg.secret, h + "." + p).None?
    case Signature => mac(cfg.secret, h + "." + p).Some? && !SignedBy(cfg, mac, h, p, s)
    case Issuer => payload.Some? && AsString(Get(payload.value, "iss")) != Some(cfg.issuer)
    case Expired => payload.Some? && var exp := AsInt64(Get(payload.value, "exp")); exp.Some? && !InTime(cfg, now, exp.value)
    case IssuedAt => payload.Some? && var iat := AsInt64(Get(payload.value, "iat")); iat.Some? && !IssuedInTime(cfg, now, iat.value)
    case Subject => payload.Some? && var sub := AsString(Get(payload.value, "sub")); sub.Some? && ParseUInt64(sub.value) in {None, Some(0)}
  }

  /** What each reason before the claim checks says of the parts. */
  lemma ReasonMeans(cfg: Config, now: int, parse: Parser, mac: Mac, h: string, p: string, s: string)
    ensures !Breaks(Format, cfg, now, parse, mac, h, p, s)
    ensures Breaks(Header, cfg, now, parse, mac, h, p, s) ==> !exists fields :: parse(DecodeUrl(h)) == Some(Object(fields))
    ensures Breaks(Payload, cfg, now, parse, mac, h, p, s) ==> !exists fields :: parse(DecodeUrl(p)) == Some(Object(fields))
    ensures Breaks(Alg, cfg, now, parse, mac, h, p, s) ==>
              forall fields :: parse(DecodeUrl(h)) == Some(Object(fields)) ==> "alg" !in fields || fields["alg"] != Str("HS256")
    ensures Breaks(Hmac, cfg, now, parse, mac, h, p, s) ==> mac(cfg.secret, h + "." + p) == None
    ensures Breaks(Signature, cfg, now, parse, mac, h, p, s) ==>
              mac(cfg.secret, h + "." + p).Some? && s != EncodeUrl(mac(cfg.secret, h + "." + p).value)
  {
    forall fields | parse(DecodeUrl(h)) == Some(Object(fields)) ensures Fields(parse, h) == Some(fields) {
    }
  }

  /** Some accessor throws: the algorithm or a claim is an array or object where a scalar is read, or a number
      that does not fit. */
  predicate Unreadable(parse: Parser, h: string, p: string) {
    var header, payload := Fields(parse, h), Fields(parse, p);
    && header.Some? && payload.Some?
    && (|| AsString(Get(header.value, "alg")).None? || AsString(Get(payload.value, "iss")).None?
        || AsInt64(Get(payload.value, "exp")).None? || AsInt64(Get(payload.value, "iat")).None?
        || AsString(Get(payload.value, "sub")).None? || AsString(Get(payload.value, "did")).None?)
  }

  /** The claim checks, after the signature. */
  method CheckClaims(cfg: Config, now: int, payload: map<string, Json>) returns (r: Outcome)
    ensures r.Accepted? ==>
              var c := r.claims;
              && c.raw == payload
              && AsString(Get(payload, "iss")) == Some(c.iss) && c.iss == cfg.issuer
              && AsInt64(Get(payload, "exp")) == Some(c.exp) && InTime(cfg, now, c.exp)
              && AsInt64(Get(payload, "iat")) == Some(c.iat) && IssuedInTime(cfg, now, c.iat)
              && (var sub := AsString(Get(payload, "sub")); sub.Some? && ParseUInt64(sub.value) == Some(c.userId)) && c.userId != 0
              && AsString(Get(payload, "did")) == Some(c.deviceId)
    ensures r.Rejected? ==>
              match r.reason
              case Issuer => AsString(Get(payload, "iss")) != Some(cfg.issuer)
              case Expired => var exp := AsInt64(Get(payload, "exp")); exp.Some? && !InTime(cfg, now, exp.value)
              case IssuedAt => var iat := AsInt64(Get(payload, "iat")); iat.Some? && !IssuedInTime(cfg, now, iat.value)
              case Subject => var sub := AsString(Get(payload, "sub")); sub.Some? && ParseUInt64(sub.value) in {None, Some(0)}
              case _ => false
    ensures r.Thrown? ==>
              || AsString(Get(payload, "iss")).None? || AsInt64(Get(payload, "exp")).None? || AsInt64(Get(payload, "iat")).None?
              || AsString(Get(payload, "sub")).None? || AsString(Get(payload, "did")).None?
  {
    var iss := AsString(Get(payload, "iss"));
    if iss.None? { return Thrown; }
    if iss.value != cfg.issuer { return Rejected(Issuer); }
    var exp, iat := AsInt64(Get(payload, "exp")), AsInt64(Get(payload, "iat"));
    if exp.None? || iat.None? { return Thrown; }
    if exp.value <= 0 || now > exp.value + cfg.skew { return Rejected(Expired); }
    if iat.value > 0 && now + cfg.skew < iat.value { return Rejected(IssuedAt); }
    var sub := AsString(Get(payload, "sub"));
    if sub.None? { return Thrown; }
    var uid := ParseUInt64(sub.value);
    if uid.None? || uid.value == 0 { return Rejected(Subject); }
    var did := AsString(Get(payload, "did"));
    if did.None? { return Thrown; }
    return Accepted(Claims(uid.value, did.value, iat.value, exp.value, iss.value, payload));
  }

  /** Verification of three parts: everything after the split. */
  method VerifyParts(h: string, p: string, s: string, cfg: Config, now: int, parse: Parser, mac: Mac) returns (r: Outcome)
    ensures r.Accepted? ==> Grants(cfg, now, parse, mac, h, p, s, r.claims)
    ensures r.Rejected? ==> Breaks(r.reason, cfg, now, parse, mac, h, p, s)
    ensures forall c :: Grants(cfg, now, parse, mac, h, p, s, c) ==> r == Accepted(c)
    ensures r.Thrown? ==> Unreadable(parse, h, p)
  {
    var headerJson := Decode(h);
    var payloadJson := Decode(p);
    var header, payload := parse(headerJson), parse(payloadJson);
    if header.None? || !header.value.Object? { return Rejected(Header); }
    if payload.None? || !payload.value.Object? { return Rejected(Payload); }
    var alg := AsString(Get(header.value.fields, "alg"));
    if alg.None? { return Thrown; }
    if alg.value != "HS256" { return Rejected(Alg); }
    var digest := mac(cfg.secret, h + "." + p);
    if digest.None? { return Rejected(Hmac); }
    var expected := Encode(digest.value);
    if expected != s { return Rejected(Signature); }
    r := CheckClaims(cfg, now, payload.value.fields);
  }

  /** The verifier accepts a token exactly when it is three dot-free non-empty parts that grant some claims,
      and then returns those claims; a rejection names a requirement that the token breaks, and an exception
      comes only from a part on which an accessor throws. */
  method Verify(token: string, cfg: Config, now: int, parse: Parser, mac: Mac) returns (r: Outcome)
    ensures r.Accepted? ==> Admits(token, cfg, now, parse, mac, r.claims)
    ensures forall c :: Admits(token, cfg, now, parse, mac, c) ==> r == Accepted(c)
    ensures r == Rejected(Format) <==> !(exists h, p, s :: IsToken(token, h, p, s))
    ensures r.Rejected? && r.reason != Format ==> exists h, p, s :: IsToken(token, h, p, s) && Breaks(r.reason, cfg, now, parse, mac, h, p, s)
    ensures r.Thrown? ==> exists h, p, s :: IsToken(token, h, p, s) && Unreadable(parse, h, p)
  {
    var parts := Split(token, '.');
    TokenIffThreeParts(token);
    if |parts| != 3 || parts[0] == "" || parts[1] == "" || parts[2] == "" {
      return Rejected(Format);
    }
    assert parts == [parts[0], parts[1], parts[2]];
    assert IsToken(token, parts[0], parts[1], parts[2]);
    r := VerifyParts(parts[0], parts[1], parts[2], cfg, now, parse, mac);
  }

  // ---------- Issued tokens are accepted ----------

  /** A token as an issuer builds it. */
  function Issue(header: seq<byte>, payload: seq<byte>, secret: seq<byte>, mac: Mac): string {
    var input := EncodeUrl(header) + "." + EncodeUrl(payload);
    match mac(secret, input)
    case Some(digest) => input + "." + EncodeUrl(digest)
    case None => input
  }

  lemma EncodedHasNoDot(b: seq<byte>)
    requires b != []
    ensures EncodeUrl(b) != "" && '.' !in EncodeUrl(b)
  {
    EncodeUrlShape(b);
    forall i | 0 <= i < |EncodeUrl(b)| ensures EncodeUrl(b)[i] != '.' {
      assert UrlAlphabet(EncodeUrl(b)[i]);
    }
  }

  /** A payload that states these claims, among any others: the user id as a numeral or a number, the device
      id possibly left out. */
  predicate States(raw: map<string, Json>, c: Claims) {
    && c.raw == raw
    && Get(raw, "sub") in {Str(Print(c.userId)), Int(c.userId)}
    && (Get(raw, "did") == Str(c.deviceId) || (c.deviceId == "" && "did" !in raw))
    && Get(raw, "iat") == Int(c.iat) && Get(raw, "exp") == Int(c.exp) && Get(raw, "iss") == Str(c.iss)
  }

  /** JSON printing that the parser inverts, and a MAC that always yields a non-empty digest. */
  ghost predicate Codec(print_: Json -> seq<byte>, parse: Parser, mac: Mac) {
    && (forall j :: parse(print_(j)) == Some(j) && print_(j) != [])
    && (forall k, text :: mac(k, text).Some? && mac(k, text).value != [])
  }

  lemma IssuedTokenGrants(cfg: Config, now: int, print_: Json -> seq<byte>, parse: Parser, mac: Mac,
                          header: map<string, Json>, c: Claims)
    requires Codec(print_, parse, mac)
    requires "alg" in header && header["alg"] == Str("HS256")
    requires States(c.raw, c) && c.iss == cfg.issuer
    requires 0 < c.userId < TWO_POW_64 && FitsInt64(c.iat) && FitsInt64(c.exp)
    requires 0 < c.exp && now <= c.exp + cfg.skew && (c.iat <= 0 || c.iat <= now + cfg.skew)
    ensures var h, p := EncodeUrl(print_(Object(header))), EncodeUrl(print_(Object(c.raw)));
            var s := EncodeUrl(mac(cfg.secret, h + "." + p).value);
            && Grants(cfg, now, parse, mac, h, p, s, c)
            && h != "" && p != "" && s != "" && '.' !in h && '.' !in p && '.' !in s
  {
    var hb, pb := print_(Object(header)), print_(Object(c.raw));
    EncodedHasNoDot(hb);
    EncodedHasNoDot(pb);
    EncodedHasNoDot(mac(cfg.secret, EncodeUrl(hb) + "." + EncodeUrl(pb)).value);
    RoundTrip(hb);
    RoundTrip(pb);
    ParseOfPrint(c.userId);
  }

  /** Any token built with HS256, the configured issuer, times inside the skew window and a non-zero 64-bit
      user id is accepted, and yields exactly its claims, for every JSON printer the parser inverts. */
  method IssuedTokenIsAccepted(cfg: Config, now: int, print_: Json -> seq<byte>, parse: Parser, mac: Mac,
                               header: map<string, Json>, c: Claims) returns (r: Outcome)
    requires Codec(print_, parse, mac)
    requires "alg" in header && header["alg"] == Str("HS256")
    requires States(c.raw, c) && c.iss == cfg.issuer
    requires 0 < c.userId < TWO_POW_64 && FitsInt64(c.iat) && FitsInt64(c.exp)
    requires 0 < c.exp && now <= c.exp + cfg.skew && (c.iat <= 0 || c.iat <= now + cfg.skew)
    ensures r == Accepted(c)
  {
    IssuedTokenGrants(cfg, now, print_, parse, mac, header, c);
    var token := Issue(print_(Object(header)), print_(Object(c.raw)), cfg.secret, mac);
    ghost var h, p := EncodeUrl(print_(Object(header))), EncodeUrl(print_(Object(c.raw)));
    assert IsToken(token, h, p, EncodeUrl(mac(cfg.secret, h + "." + p).value));
    r := Verify(token, cfg, now, parse, mac);
  }
}
