/**
 The stored session record as bytes on the wire.

 The rotation script tells whether a stored record carries a refresh token id by a plain
 substring search in the record's JSON text.  This module models the encoder and decides for
 which ids that search is the same as comparing the field.
 */
module SessionJson {

  /** One step of reading a Go string: a code point, or a byte that is not valid UTF-8. */
  datatype Unit = Point(c: char) | BadByte

  type Text = seq<Unit>

  /** The alphabet of an RFC 3339 timestamp. */
  predicate IsTimestampChar(c: char) {
    '0' <= c <= '9' || c in {'-', ':', 'T', 'Z', '.', '+'}
  }

  type Timestamp = s: string | forall c | c in s :: IsTimestampChar(c)

  datatype SessionMeta = SessionMeta(
    refreshJti: Text, createdAt: Timestamp, userAgent: Text, ip: Text, mustChangePassword: bool)

  function Points(s: string): Text {
    if s == "" then [] else [Point(s[0])] + Points(s[1..])
  }

  /** A string without decoding errors is the text of exactly one sequence of characters. */
  lemma {:induction false} PointsInjective(a: string, b: string)
    requires Points(a) == Points(b)
    ensures a == b
  {
    if a != "" && b != "" {
      assert Points(a)[0] == Points(b)[0] && Points(a)[1..] == Points(b)[1..];
      PointsInjective(a[1..], b[1..]);
    }
  }

  function HexDigit(n: nat): (d: char)
    requires n < 16
    ensures '0' <= d <= '9' || 'a' <= d <= 'f'
  {
    if n < 10 then '0' + n as char else 'a' + (n - 10) as char
  }

  /** The characters encoding/json copies as they are; HTML escaping takes three more away. */
  predicate SelfEncoding(c: char) {
    c >= ' ' && c !in {'\"', '\\', '<', '>', '&', '\U{2028}', '\U{2029}'}
  }

  /** What follows the backslash when a character is not copied. */
  function EscapeCode(c: char): (code: string)
    requires !SelfEncoding(c)
    ensures code != "" && code[0] != ':'
    ensures '\"' in code ==> code == "\""
    ensures c == '\\' ==> code == "\\"
  {
    if c in {'\"', '\\'} then [c]
    else if c == '\U{8}' then "b"
    else if c == '\U{C}' then "f"
    else if c == '\n' then "n"
    else if c == '\r' then "r"
    else if c == '\t' then "t"
    else if c == '\U{2028}' then "u2028"
    else if c == '\U{2029}' then "u2029"
    else "u00" + [HexDigit(c as int / 16), HexDigit(c as int % 16)]
  }

  /** How encoding/json writes one unit inside a string literal. */
  function Escape(u: Unit): string {
    match u
    case BadByte => "\\ufffd"
    case Point(c) => if SelfEncoding(c) then [c] else "\\" + EscapeCode(c)
  }

  function EncodeText(t: Text): string {
    if t == [] then "" else Escape(t[0]) + EncodeText(t[1..])
  }

  /** json.Marshal of the session record: fields in declaration order, omitempty on the last. */
  function Payload(m: SessionMeta): string {
    "{\"refresh_jti" + Tail(m)
  }

  function Tail(m: SessionMeta): string {
    "\":\"" + EncodeText(m.refreshJti) + AfterJti(m)
  }

  function AfterJti(m: SessionMeta): string {
    "\",\"created_at\":\"" + m.createdAt + AfterCreated(m)
  }

  function AfterCreated(m: SessionMeta): string {
    "\",\"user_agent\":\"" + EncodeText(m.userAgent) + AfterAgent(m)
  }

  function AfterAgent(m: SessionMeta): string {
    "\",\"ip\":\"" + EncodeText(m.ip) + AfterIp(m)
  }

  function AfterIp(m: SessionMeta): string {
    if m.mustChangePassword then "\",\"must_change_password\":true}" else "\"}"
  }

  const KEY := "\"refresh_jti\":\""

  /** The text the script looks for. */
  function Needle(id: string): string {
    KEY + id + "\""
  }

  /** string.find(text, needle, 1, true) found something. */
  predicate Occurs(needle: string, text: string) {
    exists i | 0 <= i <= |text| :: FoundAt(needle, text, i)
  }

  predicate FoundAt(needle: string, text: string, i: int)
    requires 0 <= i <= |text|
  {
    needle <= text[i..]
  }

  /** Every character stands for itself in JSON text. */
  predicate Plain(id: string) {
    forall c | c in id :: SelfEncoding(c)
  }

  // ---------------------------------------------------------------------------------------
  // Where a key can end.  The needle contains `i":`; in a record that window sits only at
  // the end of the first key, whatever the free-text fields hold.
  // ---------------------------------------------------------------------------------------

  predicate Window(s: string, k: int)
    requires 0 <= k < |s| - 2
  {
    s[k] == 'i' && s[k + 1] == '\"' && s[k + 2] == ':'
  }

  predicate Quiet(s: string) {
    forall k | 0 <= k < |s| - 2 :: !Window(s, k)
  }

  predicate Ends(s: string, c: char) {
    s != "" && s[|s| - 1] == c
  }

  /** Quiet pieces stay quiet together when the window cannot straddle the joint. */
  lemma QuietJoin(a: string, b: string)
    requires Quiet(a) && Quiet(b)
    requires |b| >= 2 && b[0] == '\"' && b[1] == ':' ==> !Ends(a, 'i')
    requires b != "" && b[0] == ':' && Ends(a, '\"') ==> |a| >= 2 && a[|a| - 2] != 'i'
    ensures Quiet(a + b)
  {
    forall k | 0 <= k < |a + b| - 2 ensures !Window(a + b, k) {
      if k + 2 < |a| {
        assert !Window(a, k);
      } else if k >= |a| {
        assert !Window(b, k - |a|);
      }
    }
  }

  /** Inside an encoded string every quote follows a backslash, so no window starts there. */
  lemma {:induction false} EncodedIsQuiet(t: Text)
    ensures Quiet(EncodeText(t))
    ensures EncodeText(t) != "" ==> EncodeText(t)[0] != '\"'
  {
    if t != [] {
      var e := Escape(t[0]);
      EncodedIsQuiet(t[1..]);
      assert forall k | 0 < k < |e| :: e[k] == '\"' ==> |e| == 2 && e[0] == '\\' by {
        forall k | 0 < k < |e| && e[k] == '\"' ensures |e| == 2 && e[0] == '\\' {
          assert t[0].Point? && EscapeCode(t[0].c)[k - 1] == e[k];
        }
      }
      QuietJoin(e, EncodeText(t[1..]));
    }
  }

  /** A field's opening, value and rest of the record: only the key could end in a window. */
  lemma QuietField(open: string, value: string, rest: string)
    requires Quiet(open) && Quiet(value) && Quiet(rest)
    requires |open| >= 2 && open[|open| - 2] == ':' && open[|open| - 1] == '\"'
    requires |rest| >= 2 && rest[0] == '\"' && rest[1] != ':'
    ensures Quiet(open + value + rest)
  {
    QuietJoin(open, value);
    QuietJoin(open + value, rest);
  }

  lemma QuietFromIp(m: SessionMeta)
    ensures Quiet(AfterAgent(m))
  {
    hide EncodeText;
    var open, value, rest := "\",\"ip\":\"", EncodeText(m.ip), AfterIp(m);
    EncodedIsQuiet(m.ip);
    assert Quiet(rest) by {
      assert 'i' !in rest;
    }
    QuietField(open, value, rest);
  }

  lemma QuietFromAgent(m: SessionMeta)
    ensures Quiet(AfterCreated(m))
  {
    var open, value, rest := "\",\"user_agent\":\"", EncodeText(m.userAgent), AfterAgent(m);
    EncodedIsQuiet(m.userAgent);
    QuietFromIp(m);
    assert Quiet(open) by {
      assert 'i' !in open;
    }
    QuietField(open, value, rest);
  }

  /** Past the name of the first key nothing in a record reads `i":`. */
  lemma RecordIsQuiet(m: SessionMeta)
    ensures Quiet(Tail(m))
  {
    QuietFromAgent(m);
    assert 'i' !in m.createdAt && 'i' !in "\",\"created_at\":\"";
    QuietField("\",\"created_at\":\"", m.createdAt, AfterCreated(m));
    EncodedIsQuiet(m.refreshJti);
    QuietField("\":\"", EncodeText(m.refreshJti), AfterJti(m));
  }

  /** So a match puts the needle's window where the first key ends. */
  lemma MatchIsAtFirstKey(m: SessionMeta, needle: string, i: int)
    requires 0 <= i <= |Payload(m)| && FoundAt(needle, Payload(m), i)
    requires |needle| > 13 && needle[0] == '\"' && Window(needle, 11)
    ensures i == 1
  {
    var text, head := Payload(m), "{\"refresh_jti";
    assert forall k | 0 <= k < |needle| :: needle[k] == text[i..][k] == text[i + k];
    if i > 1 {
      RecordIsQuiet(m);
      assert text[i + 11] == Tail(m)[i - 2] && text[i + 12] == Tail(m)[i - 1];
      assert Window(Tail(m), i - 2);
    }
  }

  // ---------------------------------------------------------------------------------------
  // Reading the id off the front of the value.
  // ---------------------------------------------------------------------------------------

  /** The value text begins with the id and a closing quote. */
  predicate Reads(id: string, value: string) {
    if id == "" then value != "" && value[0] == '\"'
    else value != "" && value[0] == id[0] && Reads(id[1..], value[1..])
  }

  lemma {:induction false} ReadsIsPrefix(id: string, value: string)
    ensures Reads(id, value) <==> id + "\"" <= value
  {
    if id != "" && value != "" {
      ReadsIsPrefix(id[1..], value[1..]);
      assert id + "\"" == [id[0]] + (id[1..] + "\"");
      assert value == [value[0]] + value[1..];
      if id + "\"" <= value {
        assert (id + "\"")[0] == value[0];
        assert forall k | 0 <= k < |id| :: (id[1..] + "\"")[k] == (id + "\"")[k + 1] == value[1..][k];
      }
    }
  }

  /** At the first key the needle is found when the first value starts with the id. */
  lemma MatchReadsValue(key: string, tag: string, value: string)
    ensures key + tag <= key + value <==> tag <= value
  {
    if key + tag <= key + value {
      assert forall k | 0 <= k < |tag| :: tag[k] == (key + tag)[|key| + k] == (key + value)[|key| + k];
    }
  }

  lemma SearchReadsValue(text: string, value: string, id: string)
    requires text == "{" + (KEY + value)
    requires forall i | 0 <= i <= |text| && FoundAt(Needle(id), text, i) :: i == 1
    ensures Occurs(Needle(id), text) <==> Reads(id, value)
  {
    ReadsIsPrefix(id, value);
    MatchReadsValue(KEY, id + "\"", value);
    assert text[1..] == KEY + value;
    assert Needle(id) == KEY + (id + "\"");
    if Reads(id, value) {
      assert FoundAt(Needle(id), text, 1);
    }
  }

  /** Whatever the record and the id, the search answers what the first value starts with. */
  lemma NeedleReadsFirstValue(m: SessionMeta, id: string)
    ensures Occurs(Needle(id), Payload(m)) <==> Reads(id, EncodeText(m.refreshJti) + AfterJti(m))
  {
    var text, value := Payload(m), EncodeText(m.refreshJti) + AfterJti(m);
    PayloadShape(m);
    NeedleShape(id);
    forall i | 0 <= i <= |text| && FoundAt(Needle(id), text, i)
      ensures i == 1
    {
      MatchIsAtFirstKey(m, Needle(id), i);
    }
    SearchReadsValue(text, value, id);
  }

  lemma NeedleShape(id: string)
    ensures var n := Needle(id); |n| > 13 && n[0] == '\"' && Window(n, 11)
  {
  }

  lemma PayloadShape(m: SessionMeta)
    ensures Payload(m) == "{" + (KEY + (EncodeText(m.refreshJti) + AfterJti(m)))
  {
    hide EncodeText, AfterJti;
  }

  /** What a non-empty value looks like after its first character. */
  lemma ValueStep(t: Text, rest: string)
    requires t != []
    ensures EncodeText(t) + rest == Escape(t[0]) + (EncodeText(t[1..]) + rest)
  {
  }

  /** With a plain id, the value starts with it and a closing quote only if it is the id. */
  lemma {:induction false} PlainIdDecides(id: string, t: Text, rest: string)
    requires Plain(id) && rest != "" && rest[0] == '\"'
    ensures Reads(id, EncodeText(t) + rest) <==> t == Points(id)
  {
    if t == [] {
      assert EncodeText(t) + rest == rest;
      assert id != "" ==> id[0] in id;
    } else {
      ValueStep(t, rest);
      if id != "" {
        assert id[0] in id;
        if t[0] == Point(id[0]) {
          assert (EncodeText(t) + rest)[1..] == EncodeText(t[1..]) + rest;
          PlainIdDecides(id[1..], t[1..], rest);
          assert t == [t[0]] + t[1..];
        }
      }
    }
  }

  lemma EncodedCons(id: string)
    requires id != ""
    ensures EncodeText(Points(id)) == Escape(Point(id[0])) + EncodeText(Points(id[1..]))
  {
    assert Points(id)[1..] == Points(id[1..]);
  }

  /** A backslash in the id takes one off the lead and leaves two from its own encoding. */
  lemma LeadGrows(lead: string, value: string, rest: string)
    requires lead != ""
    ensures (lead + ("\\\\" + value) + rest)[1..] == (lead[1..] + "\\\\") + value + rest
    ensures (lead + ("\\\\" + value) + rest)[0] == lead[0]
  {
  }

  /** The doubled backslashes of an encoded id never line up with the id itself. */
  lemma {:induction false} BackslashesDrift(lead: string, id: string, rest: string)
    requires lead != "" && forall k | 0 <= k < |lead| :: lead[k] == '\\'
    ensures !Reads(id, lead + EncodeText(Points(id)) + rest)
    decreases id
  {
    hide EncodeText, Points;
    assert (lead + EncodeText(Points(id)) + rest)[0] == '\\';
    if id != "" && id[0] == '\\' {
      EncodedCons(id);
      assert Escape(Point('\\')) == "\\\\";
      LeadGrows(lead, EncodeText(Points(id[1..])), rest);
      BackslashesDrift(lead[1..] + "\\\\", id[1..], rest);
    }
  }

  /** An id with an escaped character does not even match the record that carries it. */
  lemma {:induction false} EscapedIdMisses(id: string, rest: string)
    requires !Plain(id)
    ensures !Reads(id, EncodeText(Points(id)) + rest)
  {
    hide EncodeText, Points;
    var value := EncodeText(Points(id)) + rest;
    EncodedCons(id);
    if SelfEncoding(id[0]) {
      assert value[1..] == EncodeText(Points(id[1..])) + rest;
      assert !Plain(id[1..]) by {
        var c :| c in id && !SelfEncoding(c);
        assert c in id[1..];
      }
      EscapedIdMisses(id[1..], rest);
    } else if id[0] == '\\' {
      assert value[1..] == "\\" + EncodeText(Points(id[1..])) + rest;
      BackslashesDrift("\\", id[1..], rest);
    } else {
      assert value[0] == '\\';
    }
  }

  // ---------------------------------------------------------------------------------------
  // The search against the field.
  // ---------------------------------------------------------------------------------------

  /** For a plain id the substring search is the field comparison, whatever else is stored. */
  lemma NeedleIsFieldEquality(m: SessionMeta, id: string)
    requires Plain(id)
    ensures Occurs(Needle(id), Payload(m)) <==> m.refreshJti == Points(id)
  {
    NeedleReadsFirstValue(m, id);
    PlainIdDecides(id, m.refreshJti, AfterJti(m));
  }

  /** And only for a plain id: any other is refused even by the record that carries it. */
  lemma NeedleExactlyForPlainIds(id: string)
    ensures Plain(id) <==>
            forall m: SessionMeta :: Occurs(Needle(id), Payload(m)) <==> m.refreshJti == Points(id)
  {
    if Plain(id) {
      forall m: SessionMeta
        ensures Occurs(Needle(id), Payload(m)) <==> m.refreshJti == Points(id)
      {
        NeedleIsFieldEquality(m, id);
      }
    } else {
      var m := SessionMeta(Points(id), "", [], [], false);
      NeedleReadsFirstValue(m, id);
      EscapedIdMisses(id, AfterJti(m));
      assert !(Occurs(Needle(id), Payload(m)) <==> m.refreshJti == Points(id));
    }
  }

  /**
   In characters: the ids the search is right for have no control, quote, backslash, `<`, `>`,
   `&` or line or paragraph separator.
   */
  lemma SearchIsExactFor(id: string)
    ensures (forall m: SessionMeta :: Occurs(Needle(id), Payload(m)) <==> m.refreshJti == Points(id))
       <==> forall c | c in id ::
              c as int >= 32 && c !in {'\"', '\\', '<', '>', '&', 0x2028 as char, 0x2029 as char}
  {
    NeedleExactlyForPlainIds(id);
    hide Occurs, Needle, Payload, Points;
  }

  lemma Flat(a: string, b: string, c: string, rest: string)
    ensures a + (b + c + rest) == a + b + c + rest
  {
  }

  /** The text of a record, field by field. */
  lemma RecordText(m: SessionMeta)
    ensures Payload(m)
         == "{\"refresh_jti" + "\":\"" + EncodeText(m.refreshJti) + "\",\"created_at\":\"" + m.createdAt
            + "\",\"user_agent\":\"" + EncodeText(m.userAgent) + "\",\"ip\":\"" + EncodeText(m.ip)
            + (if m.mustChangePassword then "\",\"must_change_password\":true}" else "\"}")
  {
    var jti, agent, ip := EncodeText(m.refreshJti), EncodeText(m.userAgent), EncodeText(m.ip);
    var head := "{\"refresh_jti" + "\":\"" + jti;
    Flat("{\"refresh_jti", "\":\"", jti, AfterJti(m));
    Flat(head, "\",\"created_at\":\"", m.createdAt, AfterCreated(m));
    Flat(head + "\",\"created_at\":\"" + m.createdAt, "\",\"user_agent\":\"", agent, AfterAgent(m));
    Flat(head + "\",\"created_at\":\"" + m.createdAt + "\",\"user_agent\":\"" + agent, "\",\"ip\":\"", ip, AfterIp(m));
    hide EncodeText, IsTimestampChar;
  }

  /** An id free of quotes and backslashes is not enough: '<' is escaped too. */
  lemma AngleBracketIdIsRefused(m: SessionMeta)
    requires m.refreshJti == Points("a<b")
    ensures !Occurs(Needle("a<b"), Payload(m))
  {
    assert "a<b"[1] == '<';
    NeedleReadsFirstValue(m, "a<b");
    EscapedIdMisses("a<b", AfterJti(m));
  }

  /** The ids the service mints: the canonical text of a UUID. */
  predicate UuidText(id: string) {
    && |id| == 36
    && forall c | c in id :: '0' <= c <= '9' || 'a' <= c <= 'f' || c == '-'
  }

  lemma UuidTextIsPlain(id: string)
    requires UuidText(id)
    ensures Plain(id)
  {
  }
}
