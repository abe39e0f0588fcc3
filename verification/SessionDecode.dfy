/**
 Reading a stored session record back: the decoder for the text the encoder writes.

 Strings are decoded as RFC 8259, section 7, has them; fields are read in the order the encoder
 writes them.
 */
module SessionDecode {
  import opened Options
  import opened SessionJson

  const REPLACEMENT := '\U{FFFD}'

  predicate IsHex(c: char) {
    '0' <= c <= '9' || 'a' <= c <= 'f' || 'A' <= c <= 'F'
  }

  function HexValue(c: char): (n: nat)
    requires IsHex(c)
    ensures n < 16
  {
    if c <= '9' then (c - '0') as nat else if c <= 'F' then (c - 'A') as nat + 10 else (c - 'a') as nat + 10
  }

  /** The value of the four hexadecimal digits at `i`, if they are there. */
  function Hex4(s: string, i: nat): (n: Option<nat>)
    ensures n.Some? ==> i + 4 <= |s| && n.value < 0x1_0000
  {
    if i + 4 <= |s| && IsHex(s[i]) && IsHex(s[i + 1]) && IsHex(s[i + 2]) && IsHex(s[i + 3])
    then Some(((HexValue(s[i]) * 16 + HexValue(s[i + 1])) * 16 + HexValue(s[i + 2])) * 16 + HexValue(s[i + 3]))
    else None
  }

  predicate HighSurrogate(n: nat) {
    0xD800 <= n < 0xDC00
  }

  predicate LowSurrogate(n: nat) {
    0xDC00 <= n < 0xE000
  }

  /** `\uXXXX`, or a pair of them for one character; a lone surrogate is replaced. */
  function DecodeHex(s: string): (r: Option<(char, string)>)
    requires |s| >= 2
    ensures r.Some? ==> |r.value.1| < |s|
  {
    match Hex4(s, 2)
    case None => None
    case Some(n) =>
      if HighSurrogate(n) then
        if |s| >= 12 && s[6] == '\\' && s[7] == 'u' && Hex4(s, 8).Some? && LowSurrogate(Hex4(s, 8).value)
        then Some(((0x1_0000 + (n - 0xD800) * 0x400 + (Hex4(s, 8).value - 0xDC00)) as char, s[12..]))
        else Some((REPLACEMENT, s[6..]))
      else if LowSurrogate(n) then Some((REPLACEMENT, s[6..]))
      else Some((n as char, s[6..]))
  }

  /** The character a string literal's next characters stand for, and what follows them. */
  function DecodeUnit(s: string): (r: Option<(char, string)>)
    requires s != ""
    ensures r.Some? ==> |r.value.1| < |s|
  {
    if s[0] != '\\' then (if s[0] < ' ' then None else Some((s[0], s[1..])))
    else if |s| < 2 then None
    else
      match s[1]
      case '\"' => Some(('\"', s[2..]))
      case '\\' => Some(('\\', s[2..]))
      case '/' => Some(('/', s[2..]))
      case 'b' => Some(('\U{8}', s[2..]))
      case 'f' => Some(('\U{C}', s[2..]))
      case 'n' => Some(('\n', s[2..]))
      case 'r' => Some(('\r', s[2..]))
      case 't' => Some(('\t', s[2..]))
      case 'u' => DecodeHex(s)
      case _ => None
  }

  /** The text up to the closing quote, and what follows the quote. */
  function DecodeText(s: string): (r: Option<(Text, string)>)
    ensures r.Some? ==> |r.value.1| < |s|
    decreases |s|
  {
    if s == "" then None
    else if s[0] == '\"' then Some(([], s[1..]))
    else
      match DecodeUnit(s)
      case None => None
      case Some(unit) =>
        match DecodeText(unit.1)
        case None => None
        case Some(more) => Some(([Point(unit.0)] + more.0, more.1))
  }

  /** A field's opening text and its string value. */
  function Field(open: string, s: string): Option<(Text, string)> {
    if open <= s then DecodeText(s[|open|..]) else None
  }

  /** The characters of a decoded timestamp. */
  function Characters(t: Text): string {
    if t == [] then "" else (if t[0].Point? then [t[0].c] else [REPLACEMENT]) + Characters(t[1..])
  }

  predicate IsTimestamp(s: string) {
    forall c | c in s :: IsTimestampChar(c)
  }

  /** json.Unmarshal of a session record. */
  function Unmarshal(raw: string): Option<SessionMeta> {
    var jti :- Field(OPEN, raw);
    var created :- Field(",\"created_at\":\"", jti.1);
    var agent :- Field(",\"user_agent\":\"", created.1);
    var ip :- Field(",\"ip\":\"", agent.1);
    if !IsTimestamp(Characters(created.0)) || (ip.1 != "}" && ip.1 != FORCED) then None
    else Some(SessionMeta(jti.0, Characters(created.0), agent.0, ip.0, ip.1 == FORCED))
  }

  const OPEN := "{\"refresh_jti\":\""
  const FORCED := ",\"must_change_password\":true}"

  // ---------------------------------------------------------------------------------------
  // Reading back what was written
  // ---------------------------------------------------------------------------------------

  /** The character a unit decodes to: bytes that were not valid UTF-8 come back replaced. */
  function Readable(u: Unit): char {
    match u
    case Point(c) => c
    case BadByte => REPLACEMENT
  }

  function Cleaned(t: Text): Text {
    if t == [] then [] else [Point(Readable(t[0]))] + Cleaned(t[1..])
  }

  lemma HexDigitValue(n: nat)
    requires n < 16
    ensures IsHex(HexDigit(n)) && HexValue(HexDigit(n)) == n
  {
  }

  lemma HexEscapeDecodes(a: char, b: char, c: char, d: char, s: string, n: nat)
    requires IsHex(a) && IsHex(b) && IsHex(c) && IsHex(d)
    requires n < 0x1_0000 && !HighSurrogate(n) && !LowSurrogate(n)
    requires n == ((HexValue(a) * 16 + HexValue(b)) * 16 + HexValue(c)) * 16 + HexValue(d)
    ensures DecodeUnit("\\u" + [a, b, c, d] + s) == Some((n as char, s))
  {
    var text := "\\u" + [a, b, c, d] + s;
    assert text[2] == a && text[3] == b && text[4] == c && text[5] == d;
    assert text[6..] == s;
  }

  lemma ControlDecodes(c: char, s: string)
    requires c < ' ' || c in {'<', '>', '&'}
    ensures DecodeUnit("\\u00" + [HexDigit(c as int / 16), HexDigit(c as int % 16)] + s) == Some((c, s))
  {
    var high, low := c as int / 16, c as int % 16;
    HexDigitValue(high);
    HexDigitValue(low);
    HexEscapeDecodes('0', '0', HexDigit(high), HexDigit(low), s, c as int);
    assert "\\u00" + [HexDigit(high), HexDigit(low)] == "\\u" + ['0', '0', HexDigit(high), HexDigit(low)];
  }

  lemma SeparatorDecodes(c: char, s: string)
    requires c == '\U{2028}' || c == '\U{2029}'
    ensures DecodeUnit("\\u" + ['2', '0', '2', if c == '\U{2028}' then '8' else '9'] + s) == Some((c, s))
  {
    HexEscapeDecodes('2', '0', '2', if c == '\U{2028}' then '8' else '9', s, c as int);
  }

  lemma ShortEscapeDecodes(code: char, s: string)
    requires code in {'\"', '\\', 'b', 'f', 'n', 'r', 't'}
    ensures DecodeUnit("\\" + [code] + s)
         == Some((match code
                  case 'b' => '\U{8}' case 'f' => '\U{C}' case 'n' => '\n' case 'r' => '\r' case 't' => '\t'
                  case _ => code, s))
  {
    var text := "\\" + [code] + s;
    assert text[0] == '\\' && text[1] == code && text[2..] == s;
  }

  lemma EscapeCodeDecodes(c: char, s: string)
    requires !SelfEncoding(c)
    ensures DecodeUnit("\\" + EscapeCode(c) + s) == Some((c, s))
  {
    hide DecodeUnit, HexDigit;
    if (c < ' ' && c !in {'\U{8}', '\U{C}', '\n', '\r', '\t'}) || c in {'<', '>', '&'} {
      ControlDecodes(c, s);
      assert "\\" + EscapeCode(c) == "\\u00" + [HexDigit(c as int / 16), HexDigit(c as int % 16)];
    } else if c == '\U{2028}' || c == '\U{2029}' {
      SeparatorDecodes(c, s);
      assert "\\" + EscapeCode(c) == "\\u" + ['2', '0', '2', if c == '\U{2028}' then '8' else '9'];
    } else {
      ShortEscapeDecodes(EscapeCode(c)[0], s);
      assert EscapeCode(c) == [EscapeCode(c)[0]];
    }
  }

  /** A written unit decodes to its character and leaves what followed it. */
  lemma UnitDecodes(u: Unit, s: string)
    ensures DecodeUnit(Escape(u) + s) == Some((Readable(u), s))
    ensures Escape(u) != "" && Escape(u)[0] != '\"'
  {
    match u
    case BadByte =>
      HexEscapeDecodes('f', 'f', 'f', 'd', s, 0xFFFD);
      assert "\\ufffd" == "\\u" + ['f', 'f', 'f', 'd'];
    case Point(c) =>
      if SelfEncoding(c) {
        assert ([c] + s)[1..] == s;
      } else {
        EscapeCodeDecodes(c, s);
      }
  }

  /** A written string, its closing quote and more: the string comes back and the rest is left. */
  lemma {:induction false} TextDecodes(t: Text, rest: string)
    ensures DecodeText(EncodeText(t) + "\"" + rest) == Some((Cleaned(t), rest))
  {
    hide DecodeUnit, Escape;
    var s := EncodeText(t) + "\"" + rest;
    if t == [] {
      assert s[0] == '\"' && s[1..] == rest;
    } else {
      var more := EncodeText(t[1..]) + "\"" + rest;
      UnitDecodes(t[0], more);
      TextDecodes(t[1..], rest);
      assert s == Escape(t[0]) + more && s[0] == Escape(t[0])[0];
    }
  }

  lemma FieldDecodes(open: string, t: Text, rest: string)
    ensures Field(open, open + (EncodeText(t) + "\"" + rest)) == Some((Cleaned(t), rest))
  {
    hide DecodeText, EncodeText, Cleaned;
    var value := EncodeText(t) + "\"" + rest;
    TextDecodes(t, rest);
    assert (open + value)[|open|..] == value;
  }

  // ---------------------------------------------------------------------------------------
  // Whole records
  // ---------------------------------------------------------------------------------------

  lemma {:induction false} PlainEncodesToItself(s: string)
    requires Plain(s)
    ensures EncodeText(Points(s)) == s
  {
    if s != "" {
      assert SelfEncoding(s[0]) && Plain(s[1..]);
      hide SelfEncoding, Plain;
      PlainEncodesToItself(s[1..]);
      EncodedCons(s);
      assert s == [s[0]] + s[1..];
    }
  }

  lemma {:induction false} CharactersOfPoints(s: string)
    ensures Characters(Points(s)) == s
  {
    if s != "" {
      CharactersOfPoints(s[1..]);
      assert Points(s)[1..] == Points(s[1..]);
    }
  }

  lemma {:induction false} PointsAreClean(s: string)
    ensures Cleaned(Points(s)) == Points(s)
  {
    if s != "" {
      PointsAreClean(s[1..]);
      assert Points(s)[1..] == Points(s[1..]);
    }
  }

  lemma TimestampText(s: string)
    requires IsTimestamp(s)
    ensures EncodeText(Points(s)) == s && Characters(Cleaned(Points(s))) == s
  {
    assert Plain(s);
    PlainEncodesToItself(s);
    PointsAreClean(s);
    CharactersOfPoints(s);
  }

  function AfterFields(m: SessionMeta): string {
    if m.mustChangePassword then FORCED else "}"
  }

  function FromIp(m: SessionMeta): string {
    ",\"ip\":\"" + (EncodeText(m.ip) + "\"" + AfterFields(m))
  }

  function FromAgent(m: SessionMeta): string {
    ",\"user_agent\":\"" + (EncodeText(m.userAgent) + "\"" + FromIp(m))
  }

  function FromCreated(m: SessionMeta): string {
    ",\"created_at\":\"" + (EncodeText(Points(m.createdAt)) + "\"" + FromAgent(m))
  }

  lemma IpJoin(ip: string, rest: string)
    ensures "\",\"ip\":\"" + ip + ("\"" + rest) == "\"" + (",\"ip\":\"" + (ip + "\"" + rest))
  {
  }

  lemma TailShape(m: SessionMeta)
    ensures AfterIp(m) == "\"" + AfterFields(m)
  {
  }

  lemma IpShape(m: SessionMeta)
    ensures AfterAgent(m) == "\"" + FromIp(m)
  {
    hide EncodeText, AfterIp, AfterFields;
    TailShape(m);
    IpJoin(EncodeText(m.ip), AfterFields(m));
  }

  lemma AgentShape(m: SessionMeta)
    ensures AfterCreated(m) == "\"" + FromAgent(m)
  {
    IpShape(m);
    hide EncodeText, AfterAgent, FromIp;
  }

  lemma CreatedJoin(created: string, rest: string)
    ensures "\",\"created_at\":\"" + created + ("\"" + rest)
         == "\"" + (",\"created_at\":\"" + (created + "\"" + rest))
  {
  }

  lemma CreatedShape(m: SessionMeta)
    ensures AfterJti(m) == "\"" + FromCreated(m)
  {
    AgentShape(m);
    TimestampText(m.createdAt);
    CreatedJoin(m.createdAt, FromAgent(m));
    hide EncodeText, AfterCreated, FromAgent, Points, IsTimestamp, IsTimestampChar;
  }

  lemma RecordShape(m: SessionMeta)
    ensures Payload(m) == OPEN + (EncodeText(m.refreshJti) + "\"" + FromCreated(m))
  {
    CreatedShape(m);
    hide EncodeText, AfterJti, FromCreated;
  }

  /** The record with every byte that was not valid UTF-8 replaced. */
  function CleanRecord(m: SessionMeta): SessionMeta {
    m.(refreshJti := Cleaned(m.refreshJti), userAgent := Cleaned(m.userAgent), ip := Cleaned(m.ip))
  }

  /** Decoding a stored record gives back what was stored, whatever its free texts hold. */
  lemma UnmarshalUndoesMarshal(m: SessionMeta)
    ensures Unmarshal(Payload(m)) == Some(CleanRecord(m))
  {
    RecordShape(m);
    FieldDecodes(OPEN, m.refreshJti, FromCreated(m));
    FieldDecodes(",\"created_at\":\"", Points(m.createdAt), FromAgent(m));
    FieldDecodes(",\"user_agent\":\"", m.userAgent, FromIp(m));
    FieldDecodes(",\"ip\":\"", m.ip, AfterFields(m));
    TimestampText(m.createdAt);
    hide Field, Payload, EncodeText, Cleaned, Characters;
    assert FORCED != "}";
  }

  /** So two records with one text differ at most in bytes that were not valid UTF-8. */
  lemma TextDeterminesRecord(a: SessionMeta, b: SessionMeta)
    ensures Payload(a) == Payload(b) ==> CleanRecord(a) == CleanRecord(b)
  {
    hide Payload, Unmarshal, CleanRecord;
    UnmarshalUndoesMarshal(a);
    UnmarshalUndoesMarshal(b);
  }
}
