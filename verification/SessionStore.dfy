/**
 The Redis session store: keys `session:{userID}:{sessionID}`, values JSON records with a TTL.

 The class holds the raw text Redis holds.  The specification functions below it say what each
 operation does to that text, and `RotateRefinesFields` says what rotation means for the
 records the text encodes.
 */
module SessionStore {
  import opened Options
  import opened WhiteSpace
  import opened SessionJson
  import opened SessionDecode

  /** A Redis value and the instant from which it is gone, in milliseconds. */
  datatype Entry<+V> = Entry(value: V, expiresAt: int)

  type Raw = map<string, Entry<string>>
  type Records = map<string, Entry<SessionMeta>>

  datatype Outcome = Done | ValidationError | NotFound | Conflict | BadRecord

  /** GET: an expired key reads as missing. */
  function Read<V>(db: map<string, Entry<V>>, key: string, now: int): Option<V> {
    if key in db && now < db[key].expiresAt then Some(db[key].value) else None
  }

  function KeyPrefix(userID: string): string {
    "session:" + userID + ":"
  }

  function SessionKey(userID: string, sessionID: string): string {
    KeyPrefix(userID) + sessionID
  }

  /** SCAN MATCH session:{userID}:* for an id without glob characters. */
  predicate InScan(userID: string, key: string) {
    KeyPrefix(userID) <= key
  }

  predicate ColonFree(id: string) {
    ':' !in id
  }

  /** The scan of one user reaches that user's keys and no other's. */
  lemma ScanReachesExactlyTheUser(userID: string, owner: string, sessionID: string)
    requires ColonFree(userID) && ColonFree(owner)
    ensures InScan(userID, SessionKey(owner, sessionID)) <==> userID == owner
  {
    var p, k := KeyPrefix(userID), SessionKey(owner, sessionID);
    if p <= k {
      assert forall i | 0 <= i < |p| :: p[i] == k[i];
      assert p[8 + |userID|] == ':' && k[8 + |owner|] == ':';
      if |userID| == |owner| {
        assert forall i | 0 <= i < |userID| :: userID[i] == p[8 + i] == k[8 + i] == owner[i];
      }
    }
  }

  lemma SessionKeyInjective(u1: string, s1: string, u2: string, s2: string)
    requires ColonFree(u1) && ColonFree(u2)
    ensures SessionKey(u1, s1) == SessionKey(u2, s2) <==> u1 == u2 && s1 == s2
  {
    if SessionKey(u1, s1) == SessionKey(u2, s2) {
      assert KeyPrefix(u1) <= SessionKey(u1, s1);
      ScanReachesExactlyTheUser(u1, u2, s2);
      assert s1 == SessionKey(u1, s1)[|KeyPrefix(u1)|..] == s2;
    }
  }

  /** rotateSessionScript: the reply code and the database it leaves. */
  function RotateScript(
    db: Raw, oldKey: string, newKey: string, ttlMs: int, expected: string, payload: string, now: int
  ): (int, Raw) {
    match Read(db, oldKey, now)
    case None => (0, db)
    case Some(raw) =>
      if !Occurs(Needle(expected), raw) then (-1, db)
      else (1, (db - {oldKey})[newKey := Entry(payload, now + ttlMs)])
  }

  function EffectiveTtl(ttl: int): int {
    if ttl < 1 then 1 else ttl
  }

  /** How encoding/json writes the zero time. */
  const ZERO_TIME := "0001-01-01T00:00:00Z"

  /** The record as stored: a zero creation time becomes the clock's. */
  function Stamped(meta: SessionMeta, clock: Timestamp): SessionMeta {
    if meta.createdAt == ZERO_TIME then meta.(createdAt := clock) else meta
  }

  /** SessionStore.Rotate on the raw text. */
  function Rotated(
    db: Raw, ttl: int, userID: string, oldSid: string, newSid: string,
    expectedJti: string, meta: SessionMeta, now: int, clock: Timestamp
  ): (Outcome, Raw) {
    var expected := TrimSpace(expectedJti);
    if userID == "" || oldSid == "" || newSid == "" || expected == "" || meta.refreshJti == [] then
      (ValidationError, db)
    else
      var (code, db') := RotateScript(
        db, SessionKey(userID, oldSid), SessionKey(userID, newSid), EffectiveTtl(ttl),
        expected, Payload(Stamped(meta, clock)), now);
      (if code == 1 then Done else if code == 0 then NotFound else Conflict, db')
  }

  /** What the script is meant to do: compare the stored token id, then swap the records. */
  function FieldScript(
    db: Records, oldKey: string, newKey: string, ttlMs: int, expected: string, meta: SessionMeta,
    now: int
  ): (int, Records) {
    match Read(db, oldKey, now)
    case None => (0, db)
    case Some(stored) =>
      if stored.refreshJti != Points(expected) then (-1, db)
      else (1, (db - {oldKey})[newKey := Entry(meta, now + ttlMs)])
  }

  function Encoded(db: Records): Raw {
    map key | key in db :: Entry(Payload(db[key].value), db[key].expiresAt)
  }

  lemma EncodedSwap(
    db: Records, oldKey: string, newKey: string, meta: SessionMeta, payload: string, expiresAt: int)
    requires payload == Payload(meta)
    ensures Encoded((db - {oldKey})[newKey := Entry(meta, expiresAt)])
         == (Encoded(db) - {oldKey})[newKey := Entry(payload, expiresAt)]
  {
  }

  /** The script's GET and search on encoded records answer as the fields would. */
  lemma EncodedSearch(db: Records, key: string, expected: string, now: int)
    requires Plain(expected)
    ensures Read(Encoded(db), key, now).None? <==> Read(db, key, now).None?
    ensures Read(db, key, now).Some? ==>
              (Occurs(Needle(expected), Read(Encoded(db), key, now).value)
               <==> Read(db, key, now).value.refreshJti == Points(expected))
  {
    if Read(db, key, now).Some? {
      NeedleIsFieldEquality(db[key].value, expected);
    }
  }

  /** With a plain id the substring compare-and-swap is the field compare-and-swap. */
  lemma ScriptRefinesFields(
    db: Records, oldKey: string, newKey: string, ttlMs: int, expected: string, meta: SessionMeta,
    payload: string, now: int)
    requires Plain(expected) && payload == Payload(meta)
    ensures var (code, db') := FieldScript(db, oldKey, newKey, ttlMs, expected, meta, now);
            RotateScript(Encoded(db), oldKey, newKey, ttlMs, expected, payload, now)
            == (code, Encoded(db'))
  {
    hide Payload, Needle, Occurs, Plain, Points, Encoded;
    EncodedSearch(db, oldKey, expected, now);
    match Read(db, oldKey, now)
    case None =>
    case Some(stored) =>
      if stored.refreshJti == Points(expected) {
        EncodedSwap(db, oldKey, newKey, meta, payload, now + ttlMs);
      }
  }

  /** So on the ids the service mints, Rotate on the stored text compares and swaps records. */
  lemma RotateRefinesFields(
    db: Records, ttl: int, userID: string, oldSid: string, newSid: string,
    expectedJti: string, meta: SessionMeta, stored: SessionMeta, now: int, clock: Timestamp)
    requires userID != "" && oldSid != "" && newSid != "" && meta.refreshJti != []
    requires expectedJti != "" && TrimSpace(expectedJti) == expectedJti && Plain(expectedJti)
    requires stored == Stamped(meta, clock)
    ensures var (code, db') := FieldScript(db, SessionKey(userID, oldSid), SessionKey(userID, newSid),
                                           EffectiveTtl(ttl), expectedJti, stored, now);
            Rotated(Encoded(db), ttl, userID, oldSid, newSid, expectedJti, meta, now, clock)
            == (if code == 1 then Done else if code == 0 then NotFound else Conflict, Encoded(db'))
  {
    ScriptRefinesFields(db, SessionKey(userID, oldSid), SessionKey(userID, newSid),
                        EffectiveTtl(ttl), expectedJti, stored, Payload(stored), now);
  }

  lemma UuidTextIsTrimmed(id: string)
    requires UuidText(id)
    ensures id != "" && TrimSpace(id) == id
  {
    assert id[0] in id && id[35] in id;
  }

  /** With the UUIDs the service mints for token ids, Rotate is the field compare-and-swap. */
  lemma UuidRotationRefinesFields(
    db: Records, ttl: int, userID: string, oldSid: string, newSid: string,
    expectedJti: string, meta: SessionMeta, now: int, clock: Timestamp)
    requires userID != "" && oldSid != "" && newSid != "" && meta.refreshJti != []
    requires UuidText(expectedJti)
    ensures var (code, db') := FieldScript(db, SessionKey(userID, oldSid), SessionKey(userID, newSid),
                                           EffectiveTtl(ttl), expectedJti, Stamped(meta, clock), now);
            Rotated(Encoded(db), ttl, userID, oldSid, newSid, expectedJti, meta, now, clock)
            == (if code == 1 then Done else if code == 0 then NotFound else Conflict, Encoded(db'))
  {
    UuidTextIsPlain(expectedJti);
    UuidTextIsTrimmed(expectedJti);
    hide UuidText, TrimSpace, Plain, FieldScript, Rotated, Encoded;
    RotateRefinesFields(db, ttl, userID, oldSid, newSid, expectedJti, meta, Stamped(meta, clock), now, clock);
  }

  /** What Get answers for a key. */
  function Loaded(db: Raw, key: string, now: int): (Outcome, Option<SessionMeta>) {
    match Read(db, key, now)
    case None => (NotFound, None)
    case Some(raw) =>
      match Unmarshal(raw)
      case None => (BadRecord, None)
      case Some(meta) => (Done, Some(meta))
  }

  /** A stored record is loaded back until it expires, and is not found after. */
  lemma LoadReadsWhatWasStored(db: Records, key: string, now: int)
    ensures Loaded(Encoded(db), key, now)
         == match Read(db, key, now)
            case None => (NotFound, None)
            case Some(meta) => (Done, Some(CleanRecord(meta)))
  {
    if key in db {
      UnmarshalUndoesMarshal(db[key].value);
    }
    hide Unmarshal, Payload, CleanRecord;
  }

  /** The value a key answers: this text until the instant, nothing from then on. */
  ghost predicate AnswersUntil(db: Raw, key: string, text: string, until: int) {
    forall at: int :: Read(db, key, at) == if at < until then Some(text) else None
  }

  /** Every other key answers as it did, at every instant. */
  ghost predicate OthersAnswer(db: Raw, after: Raw, keys: set<string>) {
    forall key, at: int | key !in keys :: Read(after, key, at) == Read(db, key, at)
  }

  /**
   A rotation is done exactly when the old key is live and its text carries the expected id.  Then
   the new key answers the new record for the TTL, one millisecond when the TTL is shorter, the
   old key is gone, and no other key changed; otherwise nothing changed.
   */
  lemma RotationLeaves(
    db: Raw, ttl: int, userID: string, oldSid: string, newSid: string,
    expectedJti: string, meta: SessionMeta, now: int, clock: Timestamp)
    requires userID != "" && oldSid != "" && newSid != "" && meta.refreshJti != []
    requires TrimSpace(expectedJti) != ""
    ensures var (outcome, after) := Rotated(db, ttl, userID, oldSid, newSid, expectedJti, meta, now, clock);
            var from, to := "session:" + userID + ":" + oldSid, "session:" + userID + ":" + newSid;
            var live := from in db && now < db[from].expiresAt;
            && (outcome == NotFound <==> !live)
            && (outcome == Done <==> live && Occurs(Needle(TrimSpace(expectedJti)), db[from].value))
            && (outcome == Conflict <==> live && !Occurs(Needle(TrimSpace(expectedJti)), db[from].value))
            && (outcome != Done ==> after == db)
            && (outcome == Done ==>
                  && (ttl >= 1 ==> AnswersUntil(after, to, Payload(Stamped(meta, clock)), now + ttl))
                  && (ttl < 1 ==> AnswersUntil(after, to, Payload(Stamped(meta, clock)), now + 1))
                  && (from != to ==> from !in after)
                  && OthersAnswer(db, after, {from, to}))
  {
    assert SessionKey(userID, oldSid) == "session:" + userID + ":" + oldSid;
    assert SessionKey(userID, newSid) == "session:" + userID + ":" + newSid;
    hide Payload, Needle, Occurs, TrimSpace, SessionKey;
  }

  /** A zero creation time is replaced by the clock's, and nothing else of the record changes. */
  lemma StampedMeans(meta: SessionMeta, clock: Timestamp)
    ensures var stored := Stamped(meta, clock);
            && stored.createdAt == (if meta.createdAt == "0001-01-01T00:00:00Z" then clock else meta.createdAt)
            && stored.refreshJti == meta.refreshJti && stored.userAgent == meta.userAgent && stored.ip == meta.ip
            && stored.mustChangePassword == meta.mustChangePassword
  {
  }

  /** Everything but the keys one user's scan reaches. */
  function WithoutUser(db: Raw, userID: string): Raw {
    map key | key in db && !InScan(userID, key) :: db[key]
  }

  class Store {
    var rdb: Raw
    const ttl: int

    constructor (ttl: int)
      ensures rdb == map[] && this.ttl == ttl
    {
      this.ttl := ttl;
      rdb := map[];
    }

    method Create(userID: string, sessionID: string, meta: SessionMeta, now: int, clock: Timestamp)
      returns (result: Outcome)
      modifies this
      ensures result == (if userID == "" || sessionID == "" || meta.refreshJti == []
                         then ValidationError else Done)
      ensures rdb == if result.Done?
                     then old(rdb)[SessionKey(userID, sessionID)
                                   := Entry(Payload(Stamped(meta, clock)), now + ttl)]
                     else old(rdb)
    {
      if userID == "" || sessionID == "" {
        return ValidationError;
      }
      if meta.refreshJti == [] {
        return ValidationError;
      }
      var stored := meta;
      if stored.createdAt == ZERO_TIME {
        stored := stored.(createdAt := clock);
      }
      rdb := rdb[SessionKey(userID, sessionID) := Entry(Payload(stored), now + ttl)];
      return Done;
    }

    method Get(userID: string, sessionID: string, now: int)
      returns (result: Outcome, meta: Option<SessionMeta>)
      ensures (result, meta)
           == if userID == "" || sessionID == "" then (ValidationError, None)
              else Loaded(rdb, SessionKey(userID, sessionID), now)
    {
      if userID == "" || sessionID == "" {
        return ValidationError, None;
      }
      var got := Read(rdb, SessionKey(userID, sessionID), now);
      if got.None? {
        return NotFound, None;
      }
      meta := Unmarshal(got.value);
      if meta.None? {
        return BadRecord, None;
      }
      return Done, meta;
    }

    method Delete(userID: string, sessionID: string) returns (result: Outcome)
      modifies this
      ensures result == if userID == "" || sessionID == "" then ValidationError else Done
      ensures rdb == if result.Done? then old(rdb) - {SessionKey(userID, sessionID)} else old(rdb)
    {
      if userID == "" || sessionID == "" {
        return ValidationError;
      }
      rdb := rdb - {SessionKey(userID, sessionID)};
      return Done;
    }

    method Rotate(userID: string, oldSid: string, newSid: string, expectedJti: string,
                  meta: SessionMeta, now: int, clock: Timestamp)
      returns (result: Outcome)
      modifies this
      ensures (result, rdb)
           == Rotated(old(rdb), ttl, userID, oldSid, newSid, expectedJti, meta, now, clock)
    {
      if userID == "" || oldSid == "" || newSid == "" {
        return ValidationError;
      }
      var expected := TrimSpace(expectedJti);
      if expected == "" || meta.refreshJti == [] {
        return ValidationError;
      }
      var stored := meta;
      if stored.createdAt == ZERO_TIME {
        stored := stored.(createdAt := clock);
      }
      var oldKey, newKey := SessionKey(userID, oldSid), SessionKey(userID, newSid);
      var code, db := RunScript(oldKey, newKey, EffectiveTtl(ttl), expected, Payload(stored), now);
      rdb := db;
      match code {
        case 1 => return Done;
        case 0 => return NotFound;
        case _ => return Conflict;
      }
    }

    /** EVAL of the rotation script, command by command. */
    method RunScript(oldKey: string, newKey: string, ttlMs: int, expected: string,
                     payload: string, now: int)
      returns (code: int, db: Raw)
      ensures (code, db) == RotateScript(rdb, oldKey, newKey, ttlMs, expected, payload, now)
    {
      db := rdb;
      var oldRaw := Read(db, oldKey, now);
      if oldRaw.None? {
        return 0, db;
      }
      if !Occurs(Needle(expected), oldRaw.value) {
        return -1, db;
      }
      db := db - {oldKey};
      db := db[newKey := Entry(payload, now + ttlMs)];
      return 1, db;
    }

    /**
     The SCAN loop.  `pages` are the replies of the cursor until it comes back to zero; SCAN
     promises that a key present throughout is in one of them.
     */
    method DeleteAllForUser(userID: string, pages: seq<seq<string>>) returns (result: Outcome)
      requires forall page, key | page in pages && key in page :: InScan(userID, key)
      requires forall key | key in rdb && InScan(userID, key) ::
                 exists i | 0 <= i < |pages| :: key in pages[i]
      modifies this
      ensures result == if userID == "" then ValidationError else Done
      ensures rdb == if result.Done? then WithoutUser(old(rdb), userID) else old(rdb)
    {
      if userID == "" {
        return ValidationError;
      }
      var cursor := 0;
      while cursor < |pages|
        invariant 0 <= cursor <= |pages|
        invariant forall key | key in rdb :: key in old(rdb) && rdb[key] == old(rdb)[key]
        invariant forall key | key in old(rdb) && key !in rdb :: InScan(userID, key)
        invariant forall i, key | 0 <= i < cursor && key in pages[i] :: key !in rdb
      {
        var keys := pages[cursor];
        if |keys| > 0 {
          rdb := rdb - (set key | key in keys);
        }
        cursor := cursor + 1;
      }
      return Done;
    }
  }
}
