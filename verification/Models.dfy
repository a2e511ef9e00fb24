/**
 Messages, log entries and snapshots (internal/models/message.go), and what their
 digests determine.
 */
module Models {
  import opened Hashing
  import opened Options
  import opened Decimal
  import opened Encoding
  import opened CanonicalJson

  const SNAPSHOT_INTERVAL: nat := 100
  const CURRENT_SCHEMA_VERSION := 1
  const GENESIS_HASH: string := Zeros(64)

  function Zeros(n: nat): string {
    seq(n, _ => '0')
  }

  /** A timestamp is the text RFC 3339 gives it; the other strings are well-formed. */
  datatype SignedMessage = SignedMessage(
    schemaVersion: int, messageId: string, chatId: string, senderId: string, content: Bytes,
    contentType: string, filename: string, encrypted: bool, timestamp: string,
    publicKey: Bytes, signature: Bytes)

  datatype LogEntry = LogEntry(sequence: nat, message: SignedMessage, prevHash: string, entryHash: string)

  datatype Snapshot = Snapshot(
    chatId: string, index: nat, fromSequence: nat, toSequence: nat, merkleRoot: string, lastEntryHash: string)

  // ---------------------------------------------------------------- signing payload

  function PayloadFields(m: SignedMessage): seq<Field> {
    [ ("chat_id", m.chatId),
      ("content", Base64(m.content)),
      ("content_type", m.contentType),
      ("encrypted", if m.encrypted then "true" else "false"),
      ("filename", m.filename),
      ("message_id", m.messageId),
      ("public_key", Base64(m.publicKey)),
      ("schema_version", PrintInt(m.schemaVersion)),
      ("sender_id", m.senderId),
      ("timestamp", m.timestamp) ]
  }

  function SigningPayload(m: SignedMessage): Bytes {
    Utf8(Canonical(PayloadFields(m)))
  }

  /** The client's signingPayload, built by its canonicalJSON. */
  method ClientPayload(m: SignedMessage) returns (payload: Bytes)
    ensures payload == SigningPayload(m)
    ensures payload == Utf8(GoMarshal(PayloadFields(m)))
  {
    var text := CanonicalJSON(PayloadFields(m));
    ClientMatchesServer(PayloadFields(m));
    return Utf8(text);
  }

  /** a sorts strictly before b, character by character. */
  ghost predicate SortsBefore(a: string, b: string) {
    exists k {:trigger a[..k]} :: 0 <= k <= |a| && k < |b| && a[..k] == b[..k] && (k == |a| || a[k] < b[k])
  }

  /** The fields are listed in the one order a sort of their keys leaves. */
  lemma FieldsAreSorted(m: SignedMessage)
    ensures forall i :: 0 <= i < 9 ==> SortsBefore(PayloadFields(m)[i].0, PayloadFields(m)[i + 1].0)
  {
    assert "chat_id"[..1] == "content"[..1];
    assert "content"[..7] == "content_type"[..7];
    assert "content_type"[..0] == "encrypted"[..0];
    assert "encrypted"[..0] == "filename"[..0];
    assert "filename"[..0] == "message_id"[..0];
    assert "message_id"[..0] == "public_key"[..0];
    assert "public_key"[..0] == "schema_version"[..0];
    assert "schema_version"[..1] == "sender_id"[..1];
    assert "sender_id"[..0] == "timestamp"[..0];
  }

  /** What whoever decodes the signed bytes reads: UTF-8 text of one JSON object with exactly
      these ten members in this order, each the field its key names. */
  lemma {:induction false} PayloadHolds(m: SignedMessage)
    ensures var text := Utf8Decode(SigningPayload(m));
            && text.Some? && ParseObject(text.value).Some?
            && var fields := ParseObject(text.value).value;
            && |fields| == 10
            && fields[0] == ("chat_id", m.chatId)
            && fields[1].0 == "content" && Base64Decode(fields[1].1) == Some(m.content)
            && fields[2] == ("content_type", m.contentType)
            && fields[3] == ("encrypted", if m.encrypted then "true" else "false")
            && fields[4] == ("filename", m.filename)
            && fields[5] == ("message_id", m.messageId)
            && fields[6].0 == "public_key" && Base64Decode(fields[6].1) == Some(m.publicKey)
            && fields[7].0 == "schema_version" && ParseInt(fields[7].1) == Some(m.schemaVersion)
            && fields[8] == ("sender_id", m.senderId)
            && fields[9] == ("timestamp", m.timestamp)
  {
    hide Utf8, Utf8Decode, Canonical, ParseObject, Base64, Base64Decode, PrintInt, ParseInt;
    var fields := PayloadFields(m);
    Utf8Decodes(Canonical(fields));
    CanonicalParses(fields);
    Base64Decodes(m.content);
    Base64Decodes(m.publicKey);
    PrintIntParses(m.schemaVersion);
  }

  /** So the signed bytes determine every field of the message but its signature. */
  lemma {:induction false} SigningPayloadInjective(m: SignedMessage, n: SignedMessage)
    requires SigningPayload(m) == SigningPayload(n)
    ensures m == n.(signature := m.signature)
  {
    hide SigningPayload, Utf8Decode, ParseObject, Base64Decode, ParseInt;
    PayloadHolds(m);
    PayloadHolds(n);
    TrueIsNotFalse();
  }

  lemma TrueIsNotFalse()
    ensures "true" != "false"
  {
    assert |"true"| == 4 && |"false"| == 5;
  }

  // ---------------------------------------------------------------- signatures

  const PUBLIC_KEY_SIZE: nat := 32
  const SIGNATURE_SIZE: nat := 64

  /** Ed25519 verification: any predicate of key, data and signature. */
  type Verifier = (Bytes, Bytes, Bytes) -> bool

  /** The two primitives a node computes with. */
  datatype Crypto = Crypto(sha: Hasher, ed: Verifier)

  /** crypto.VerifyMessage. The key length is checked by the repository's code; that no
      signature of another length verifies is section 5.1.7 of RFC 8032. */
  predicate VerifyMessage(ed: Verifier, m: SignedMessage) {
    && |m.signature| != 0
    && |m.publicKey| == PUBLIC_KEY_SIZE
    && |m.signature| == SIGNATURE_SIZE
    && ed(m.publicKey, SigningPayload(m), m.signature)
  }

  // ---------------------------------------------------------------- entry hash

  function MessageDigest(h: Hasher, m: SignedMessage): string {
    Sum(h, SigningPayload(m) + m.signature)
  }

  function EntryPreimage(sequence: nat, prevHash: string, digest: string): string {
    Print(sequence) + ":" + (prevHash + ":" + digest)
  }

  /** What the hash of an entry hashes. */
  function PreimageOf(h: Hasher, e: LogEntry): string {
    EntryPreimage(e.sequence, e.prevHash, MessageDigest(h, e.message))
  }

  function ComputeHash(h: Hasher, e: LogEntry): string {
    Sum(h, PreimageOf(h, e))
  }

  /** An entry hash does not depend on the hash the entry carries. */
  lemma HashIgnoresItself(h: Hasher, e: LogEntry, other: string)
    ensures ComputeHash(h, e.(entryHash := other)) == ComputeHash(h, e)
  {
    hide EntryPreimage, SigningPayload;
  }

  /** The first colon of a text, or its end. */
  function ColonAt(x: string): (p: nat)
    ensures p <= |x|
    ensures p < |x| ==> x[p] == ':'
    ensures forall j :: 0 <= j < p ==> x[j] != ':'
  {
    if x == "" || x[0] == ':' then 0 else 1 + ColonAt(x[1..])
  }

  /** How a preimage is read back, whatever the previous hash looks like: decimal digits up
      to the first colon are the sequence, the last 64 characters after a colon the digest,
      and what lies between the previous hash. */
  lemma {:induction false} EntryPreimageReads(v: nat, prev: string, d: string)
    requires |d| == 64
    ensures var x := EntryPreimage(v, prev, d);
            var p := ColonAt(x);
            && 0 < p < |x| - 65
            && AllDigits(x[..p]) && Parse(x[..p]) == v && (p == 1 || x[0] != '0')
            && x[p + 1..|x| - 65] == prev && x[|x| - 65] == ':' && x[|x| - 64..] == d
  {
    hide Print;
    var s, x := Print(v), EntryPreimage(v, prev, d);
    PrintParses(v);
    PrintOfZero();
    assert x[|s|] == ':' && x[..|s|] == s;
    assert forall j :: 0 <= j < |s| ==> x[j] == s[j];
    assert ColonAt(x) == |s|;
    var rest := prev + ":" + d;
    assert x[|s| + 1..] == rest;
    assert x[|s| + 1..|x| - 65] == rest[..|prev|] == prev && x[|x| - 65] == rest[|prev|];
  }

  lemma PrintOfZero()
    ensures |Print(0)| == 1
  {}

  /** The preimage of an entry hash determines sequence, previous hash and digest. */
  lemma EntryPreimageInjective(v: nat, prev: string, d: string, v': nat, prev': string, d': string)
    requires |d| == |d'| == DIGEST_WIDTH
    requires EntryPreimage(v, prev, d) == EntryPreimage(v', prev', d')
    ensures v == v' && prev == prev' && d == d'
  {
    hide EntryPreimage;
    EntryPreimageReads(v, prev, d);
    EntryPreimageReads(v', prev', d');
  }

  /** What an entry hash is the digest of. */
  lemma {:induction false} EntryHashReads(h: Hasher, e: LogEntry)
    ensures var x := PreimageOf(h, e);
            var p := ColonAt(x);
            && ComputeHash(h, e) == Sum(h, x) && 0 < p < |x| - 65
            && AllDigits(x[..p]) && Parse(x[..p]) == e.sequence && (p == 1 || x[0] != '0')
            && x[p + 1..|x| - 65] == e.prevHash && x[|x| - 65] == ':'
            && x[|x| - 64..] == Sum(h, SigningPayload(e.message) + e.message.signature)
  {
    hide EntryPreimage, SigningPayload, ColonAt, AllDigits, Parse;
    EntryPreimageReads(e.sequence, e.prevHash, MessageDigest(h, e.message));
  }

  /** Two entries of one hash: the pair of preimages that differ, if any. */
  function EntryCollision(h: Hasher, e: LogEntry, f: LogEntry): Pair {
    var x, y := PreimageOf(h, e), PreimageOf(h, f);
    if x != y then Pair(x, y)
    else Pair(SigningPayload(e.message) + e.message.signature, SigningPayload(f.message) + f.message.signature)
  }

  /** An entry hash binds position, predecessor and the whole signed message. */
  lemma {:induction false} EntryBinding(h: Hasher, e: LogEntry, f: LogEntry)
    requires |e.message.signature| == |f.message.signature| == SIGNATURE_SIZE
    requires ComputeHash(h, e) == ComputeHash(h, f)
    ensures || (e.sequence == f.sequence && e.prevHash == f.prevHash && e.message == f.message)
            || Collides(h, EntryCollision(h, e, f))
  {
    hide SigningPayload, EntryPreimage;
    var x, y := PreimageOf(h, e), PreimageOf(h, f);
    if x == y {
      EntryPreimageInjective(e.sequence, e.prevHash, MessageDigest(h, e.message),
                             f.sequence, f.prevHash, MessageDigest(h, f.message));
      var p, q := SigningPayload(e.message), SigningPayload(f.message);
      if p + e.message.signature == q + f.message.signature {
        SplitEqual(p, e.message.signature, q, f.message.signature);
        SigningPayloadInjective(e.message, f.message);
      }
    }
  }
}
