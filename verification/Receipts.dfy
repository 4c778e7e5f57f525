/** Terminal run receipts and the bytes that are signed (internal/cli/attest.go). A character stands
    for one byte. */
module Receipts {

  import opened Wrappers
  import opened Text

  const TWO_32 := 0x1_0000_0000
  const TWO_63 := 0x8000_0000_0000_0000

  type int64 = x: int | -TWO_63 <= x < TWO_63

  datatype Receipt = Receipt(
    schemaVersion: int64, receiptType: string, startedAt: string, endedAt: string, provider: string, leaseId: string,
    slug: string, runId: string, command: string, commandSha256: string, exitCode: int64, syncMs: int64,
    commandMs: int64, durationMs: int64, logSha256: string, retainedLogSha256: string, logTruncated: bool,
    evidenceSha256: string, publicKey: string, signer: string, signature: string)

  const V2 := 2
  const V3 := 3
  const RECEIPT_TYPE := "terminal"
  const MAX_FIELD := 4096
  const MAX_IDENTITY := 256
  const MAX_RECEIPT := 16384

  // ---------- length-prefixed bytes ----------

  function ByteChar(n: int): (c: char)
    ensures c as int == n % 256
  {
    (n % 256) as char
  }

  /** Four bytes, big endian, of the length truncated to 32 bits. */
  function LengthBytes(n: nat): (s: string)
    ensures |s| == 4
  {
    var m := n % TWO_32;
    [ByteChar(m / 0x100_0000), ByteChar(m / 0x1_0000), ByteChar(m / 0x100), ByteChar(m)]
  }

  function Encoded(values: seq<string>): string
  {
    if values == [] then "" else LengthBytes(|values[0]|) + values[0] + Encoded(values[1..])
  }

  lemma {:induction false} EncodedSnoc(values: seq<string>, last: string)
    ensures Encoded(values + [last]) == Encoded(values) + LengthBytes(|last|) + last
  {
    if values == [] {
      assert ([last])[1..] == [];
    } else {
      EncodedSnoc(values[1..], last);
      assert (values + [last])[1..] == values[1..] + [last];
    }
  }

  method LengthPrefixedBytes(prefix: string, values: seq<string>) returns (payload: string)
    ensures payload == prefix + Encoded(values)
  {
    payload := prefix;
    for k := 0 to |values|
      invariant payload == prefix + Encoded(values[..k])
    {
      payload := payload + LengthBytes(|values[k]|);
      payload := payload + values[k];
      EncodedSnoc(values[..k], values[k]);
      assert values[..k + 1] == values[..k] + [values[k]];
    }
    assert values[..|values|] == values;
  }

  function ReadLength(s: string): (n: nat)
    requires |s| == 4
  {
    ((s[0] as int * 256 + s[1] as int) * 256 + s[2] as int) * 256 + s[3] as int
  }

  /** The reader of the code: it needs nothing but the bytes. */
  function Decoded(s: string): Option<seq<string>>
    decreases |s|
  {
    if s == "" then Some([])
    else if |s| < 4 then None
    else
      var n := ReadLength(s[..4]);
      if |s| < 4 + n then None
      else
        match Decoded(s[4 + n..])
        case None => None
        case Some(rest) => Some([s[4..4 + n]] + rest)
  }

  lemma LengthRoundTrip(n: nat)
    ensures ReadLength(LengthBytes(n)) == n % TWO_32
  {
    var m := n % TWO_32;
    var a, b, c := m / 0x100_0000, m / 0x1_0000, m / 0x100;
    assert a < 256 && b / 256 == a && c / 256 == b && m / 256 == c;
    assert b == 256 * a + b % 256 && c == 256 * b + c % 256 && m == 256 * c + m % 256;
  }

  lemma DecodedStep(length: string, head: string, rest: string)
    requires |length| == 4 && ReadLength(length) == |head| && Decoded(rest).Some?
    ensures Decoded(length + head + rest) == Some([head] + Decoded(rest).value)
  {
    var s, n := length + head + rest, |head|;
    assert s[..4] == length;
    assert s[4..4 + n] == head;
    assert s[4 + n..] == rest;
  }

  lemma DecodedHead(head: string, code: string, rest: seq<string>)
    requires |head| < TWO_32 && Decoded(code) == Some(rest)
    ensures Decoded(LengthBytes(|head|) + head + code) == Some([head] + rest)
  {
    LengthRoundTrip(|head|);
    DecodedStep(LengthBytes(|head|), head, code);
  }

  /** The code is uniquely decodable when every length fits in 32 bits. */
  lemma {:induction false} DecodedEncoded(values: seq<string>)
    requires forall i :: 0 <= i < |values| ==> |values[i]| < TWO_32
    ensures Decoded(Encoded(values)) == Some(values)
  {
    if values != [] {
      var head, rest := values[0], values[1..];
      DecodedEncoded(rest);
      DecodedHead(head, Encoded(rest), rest);
      assert [head] + rest == values;
    }
  }

  function Zeros(n: nat): (s: string)
    ensures |s| == n
  {
    if n == 0 then "" else [0 as char] + Zeros(n - 1)
  }

  lemma {:induction false} ZerosAdd(m: nat, n: nat)
    ensures Zeros(m) + Zeros(n) == Zeros(m + n)
  {
    if m > 0 {
      ZerosAdd(m - 1, n);
      assert [0 as char] + Zeros(m - 1) + Zeros(n) == [0 as char] + (Zeros(m - 1) + Zeros(n));
    }
  }

  function Empties(n: nat): (s: seq<string>)
    ensures |s| == n
  {
    if n == 0 then [] else [""] + Empties(n - 1)
  }

  lemma {:induction false} EmptiesEncoded(n: nat)
    ensures Encoded(Empties(n)) == Zeros(4 * n)
  {
    if n > 0 {
      EmptiesEncoded(n - 1);
      assert Empties(n)[1..] == Empties(n - 1);
      assert LengthBytes(0) == Zeros(4);
      ZerosAdd(4, 4 * (n - 1));
    }
  }

  /** The bound is needed: a value of 2^32 zero bytes is written like 2^30 + 1 empty values. */
  lemma WrappedLengthIsAmbiguous()
    ensures exists v, w :: v != w && Encoded(v) == Encoded(w)
  {
    var n := 0x4000_0001;
    OneEncoded(Zeros(TWO_32));
    LengthWraps();
    ZerosAdd(4, TWO_32);
    EmptiesEncoded(n);
    assert 4 * n == 4 + TWO_32;
    assert |[Zeros(TWO_32)]| != |Empties(n)|;
  }

  lemma OneEncoded(value: string)
    ensures Encoded([value]) == LengthBytes(|value|) + value
  {
    assert [value][1..] == [];
  }

  lemma LengthWraps()
    ensures LengthBytes(TWO_32) == Zeros(4)
  {
  }

  // ---------- the signed bytes ----------

  function FormatBool(b: bool): string { if b then "true" else "false" }

  function SigningPrefix(r: Receipt): string
  {
    if r.schemaVersion >= V3 then "crabbox-terminal-receipt-v3\0" else "crabbox-terminal-receipt-v2\0"
  }

  function BaseValues(r: Receipt): (v: seq<string>)
    ensures |v| == 17
  {
    [Itoa(r.schemaVersion), r.receiptType, r.startedAt, r.endedAt, r.provider, r.leaseId, r.slug, r.runId, r.command,
     r.commandSha256, Itoa(r.exitCode), Itoa(r.syncMs), Itoa(r.commandMs), Itoa(r.durationMs), r.logSha256,
     r.retainedLogSha256, FormatBool(r.logTruncated)]
  }

  function SigningValues(r: Receipt): seq<string>
  {
    BaseValues(r) + (if r.schemaVersion >= V3 then [r.evidenceSha256] else []) + [r.publicKey, r.signer]
  }

  function SigningBytes(r: Receipt): string { SigningPrefix(r) + Encoded(SigningValues(r)) }

  method TerminalReceiptSigningBytes(r: Receipt) returns (payload: string)
    ensures payload == SigningBytes(r)
  {
    var values := BaseValues(r);
    var prefix := "crabbox-terminal-receipt-v2\0";
    if r.schemaVersion >= V3 {
      prefix := "crabbox-terminal-receipt-v3\0";
      values := values + [r.evidenceSha256];
    }
    values := values + [r.publicKey, r.signer];
    assert r.schemaVersion < V3 ==> values == BaseValues(r) + [] + [r.publicKey, r.signer];
    payload := LengthPrefixedBytes(prefix, values);
  }

  // ---------- validation ----------

  /** Time parsing (nanoseconds), base64 decoding, SHA-256 as it is written, and Ed25519. */
  datatype Env = Env(
    parseTime: string -> Option<int>,
    base64: string -> Option<string>,
    digest: string -> string,
    verify: (string, string, string) -> bool)

  predicate HexDigit(c: char, upper: bool) { '0' <= c <= '9' || 'a' <= c <= 'f' || (upper && 'A' <= c <= 'F') }

  predicate ValidSha256Digest(s: string)
  {
    |s| == 7 + 64 && s[..7] == "sha256:" && forall i :: 7 <= i < |s| ==> HexDigit(s[i], true)
  }

  predicate ValidLowercaseHexDigest(s: string)
  {
    |s| == 64 && forall i :: 0 <= i < |s| ==> HexDigit(s[i], false)
  }

  function RequiredFields(r: Receipt): seq<string>
  {
    [r.startedAt, r.endedAt, r.provider, r.runId, r.command, r.commandSha256, r.logSha256, r.retainedLogSha256,
     r.publicKey, r.signer]
  }

  predicate PresentAndBounded(s: string) { TrimSpace(s) != "" && |s| <= MAX_FIELD }

  /** `endedAt.Sub(startedAt).Milliseconds()`: the difference saturates at 64 bits. */
  function Milliseconds(started: int, ended: int): int
    requires started <= ended
  {
    (if ended - started >= TWO_63 then TWO_63 - 1 else ended - started) / 1_000_000
  }

  predicate TimesAgree(env: Env, r: Receipt)
  {
    var s, e := env.parseTime(r.startedAt), env.parseTime(r.endedAt);
    && s.Some? && e.Some? && s.value <= e.value
    && r.exitCode >= 0 && r.syncMs >= 0 && r.commandMs >= 0 && r.durationMs >= 0
    && r.durationMs == Milliseconds(s.value, e.value)
  }

  predicate EvidenceAgrees(r: Receipt)
  {
    if r.evidenceSha256 == "" then r.schemaVersion < V3
    else r.schemaVersion >= V3 && ValidLowercaseHexDigest(r.evidenceSha256)
  }

  predicate KeyAgrees(env: Env, r: Receipt)
  {
    var key := env.base64(r.publicKey);
    && key.Some? && |key.value| == 32 && r.signer == env.digest(key.value)
    && (r.signature != "" ==> env.base64(r.signature).Some? && |env.base64(r.signature).value| == 64)
  }

  /** The validator accepts. The order of its checks does not matter to the verdict. */
  predicate Validates(env: Env, r: Receipt)
  {
    && r.receiptType == RECEIPT_TYPE
    && (r.schemaVersion == V3 || r.schemaVersion == V2)
    && (forall i :: 0 <= i < |RequiredFields(r)| ==> PresentAndBounded(RequiredFields(r)[i]))
    && |r.leaseId| <= MAX_IDENTITY && |r.slug| <= MAX_IDENTITY
    && TimesAgree(env, r)
    && ValidSha256Digest(r.commandSha256) && ValidSha256Digest(r.logSha256)
    && ValidSha256Digest(r.retainedLogSha256) && ValidSha256Digest(r.signer)
    && EvidenceAgrees(r)
    && KeyAgrees(env, r)
  }

  // ---------- what equal signed bytes mean ----------

  lemma Power10Nineteen()
    ensures Power10(19) == 10_000_000_000_000_000_000
  {
    assert Power10(4) == 10_000;
    assert Power10(8) == 10 * (10 * (10 * (10 * Power10(4))));
    assert Power10(12) == 10 * (10 * (10 * (10 * Power10(8))));
    assert Power10(16) == 10 * (10 * (10 * (10 * Power10(12))));
    assert Power10(19) == 10 * (10 * (10 * Power10(16)));
  }

  lemma ItoaShort(n: int64)
    ensures |Itoa(n)| <= 20
  {
    Power10Nineteen();
    var m: int := n;
    DigitsLength(if m < 0 then -m else m, 19, Power10(19));
  }

  lemma BaseValuesShort(env: Env, r: Receipt)
    requires Validates(env, r)
    ensures forall i :: 0 <= i < 17 ==> |BaseValues(r)[i]| < TWO_32
  {
    ItoaShort(r.schemaVersion);
    ItoaShort(r.exitCode);
    ItoaShort(r.syncMs);
    ItoaShort(r.commandMs);
    ItoaShort(r.durationMs);
    RequiredShort(r);
  }

  lemma RequiredShort(r: Receipt)
    requires forall i :: 0 <= i < |RequiredFields(r)| ==> PresentAndBounded(RequiredFields(r)[i])
    ensures |r.startedAt| <= MAX_FIELD && |r.endedAt| <= MAX_FIELD && |r.provider| <= MAX_FIELD
              && |r.runId| <= MAX_FIELD
    ensures |r.command| <= MAX_FIELD && |r.commandSha256| <= MAX_FIELD && |r.logSha256| <= MAX_FIELD
    ensures |r.retainedLogSha256| <= MAX_FIELD && |r.publicKey| <= MAX_FIELD && |r.signer| <= MAX_FIELD
  {
    var f := RequiredFields(r);
    assert f[0] == r.startedAt && f[1] == r.endedAt && f[2] == r.provider && f[3] == r.runId && f[4] == r.command;
    assert f[5] == r.commandSha256 && f[6] == r.logSha256 && f[7] == r.retainedLogSha256 && f[8] == r.publicKey
        && f[9] == r.signer;
  }

  lemma SigningValuesShort(env: Env, r: Receipt)
    requires Validates(env, r)
    ensures forall i :: 0 <= i < |SigningValues(r)| ==> |SigningValues(r)[i]| < TWO_32
  {
    BaseValuesShort(env, r);
    RequiredShort(r);
    var v := SigningValues(r);
    forall i | 0 <= i < |v| ensures |v[i]| < TWO_32 {
      if i < 17 { assert v[i] == BaseValues(r)[i]; }
    }
  }

  /** The receipt without its signature: what a signature is meant to fix. */
  function Unsigned(r: Receipt): Receipt { r.(signature := "") }

  lemma SameBaseValues(r: Receipt, s: Receipt)
    requires BaseValues(r) == BaseValues(s)
    ensures Unsigned(r) ==
              Unsigned(s).(evidenceSha256 := r.evidenceSha256, publicKey := r.publicKey, signer := r.signer)
  {
    var v, w := BaseValues(r), BaseValues(s);
    ItoaInjective(r.schemaVersion, s.schemaVersion);
    ItoaInjective(r.exitCode, s.exitCode);
    ItoaInjective(r.syncMs, s.syncMs);
    ItoaInjective(r.commandMs, s.commandMs);
    ItoaInjective(r.durationMs, s.durationMs);
    assert v[0] == w[0] && v[1] == w[1] && v[2] == w[2] && v[3] == w[3] && v[4] == w[4] && v[5] == w[5];
    assert v[6] == w[6] && v[7] == w[7] && v[8] == w[8] && v[9] == w[9] && v[10] == w[10] && v[11] == w[11];
    assert v[12] == w[12] && v[13] == w[13] && v[14] == w[14] && v[15] == w[15] && v[16] == w[16];
    assert FormatBool(true)[0] != FormatBool(false)[0];
  }

  lemma SameSigningValues(r: Receipt, s: Receipt)
    requires SigningValues(r) == SigningValues(s) && (r.schemaVersion >= V3 <==> s.schemaVersion >= V3)
    requires r.schemaVersion < V3 ==> r.evidenceSha256 == s.evidenceSha256
    ensures Unsigned(r) == Unsigned(s)
  {
    var v, w := SigningValues(r), SigningValues(s);
    assert v[..17] == BaseValues(r) && w[..17] == BaseValues(s);
    SameBaseValues(r, s);
    assert v[|v| - 1] == r.signer && w[|w| - 1] == s.signer;
    assert v[|v| - 2] == r.publicKey && w[|w| - 2] == s.publicKey;
    assert r.schemaVersion >= V3 ==> v[17] == r.evidenceSha256 && w[17] == s.evidenceSha256;
  }

  lemma PrefixesDiffer(r: Receipt, s: Receipt)
    requires SigningBytes(r) == SigningBytes(s)
    ensures r.schemaVersion >= V3 <==> s.schemaVersion >= V3
    ensures Encoded(SigningValues(r)) == Encoded(SigningValues(s))
  {
    var a, b := "crabbox-terminal-receipt-v2\0", "crabbox-terminal-receipt-v3\0";
    assert |a| == |b| == 28 && a[26] == '2' && b[26] == '3';
    assert SigningBytes(r)[26] == SigningPrefix(r)[26] && SigningBytes(s)[26] == SigningPrefix(s)[26];
    assert SigningBytes(r)[28..] == Encoded(SigningValues(r)) && SigningBytes(s)[28..] == Encoded(SigningValues(s));
  }

  /** Two receipts the validator accepts have the same signed bytes exactly when they agree on every
      field but the signature. */
  lemma SigningBytesIff(env: Env, r: Receipt, s: Receipt)
    requires Validates(env, r) && Validates(env, s)
    ensures SigningBytes(r) == SigningBytes(s) <==> Unsigned(r) == Unsigned(s)
  {
    if SigningBytes(r) == SigningBytes(s) {
      PrefixesDiffer(r, s);
      SigningValuesShort(env, r);
      SigningValuesShort(env, s);
      DecodedEncoded(SigningValues(r));
      DecodedEncoded(SigningValues(s));
      SameSigningValues(r, s);
    }
    if Unsigned(r) == Unsigned(s) {
      assert SigningValues(r) == SigningValues(Unsigned(r)) && SigningValues(s) == SigningValues(Unsigned(s));
    }
  }

  ghost predicate Short(r: Receipt) { forall i :: 0 <= i < |SigningValues(r)| ==> |SigningValues(r)[i]| < TWO_32 }

  /** Without the validator the evidence can be exchanged under the same signed bytes exactly when the
      receipt is of a version before 3. */
  lemma UnvalidatedEvidence(r: Receipt, evidence: string)
    requires Short(r) && |evidence| < TWO_32
    ensures var s := r.(evidenceSha256 := evidence);
            SigningBytes(s) == SigningBytes(r) <==> r.schemaVersion < V3 || s == r
  {
    var s := r.(evidenceSha256 := evidence);
    if r.schemaVersion >= V3 && SigningBytes(s) == SigningBytes(r) {
      PrefixesDiffer(r, s);
      var v, w := SigningValues(r), SigningValues(s);
      forall i | 0 <= i < |w| ensures |w[i]| < TWO_32 {
        if i != 17 { assert w[i] == v[i]; }
      }
      DecodedEncoded(v);
      DecodedEncoded(w);
      assert v[17] == r.evidenceSha256 && w[17] == evidence;
    }
  }

  /** The verifier accepts a receipt: it validates and its signature verifies over the signed bytes. */
  predicate Accepts(env: Env, r: Receipt)
  {
    && Validates(env, r) && r.signature != ""
    && env.verify(env.base64(r.publicKey).value, SigningBytes(r), env.base64(r.signature).value)
  }

  /** No bytes verify under a key but those of the receipts built with it. */
  ghost predicate Unforged(env: Env, key: string, built: set<Receipt>)
  {
    forall message, signature :: env.verify(key, message, signature) ==>
        exists r :: r in built && SigningBytes(r) == message
  }

  /** So an accepted receipt is, field for field, one that the key's holder built. */
  lemma AcceptedWasBuilt(env: Env, r: Receipt, built: set<Receipt>)
    requires Accepts(env, r) && Unforged(env, env.base64(r.publicKey).value, built)
    requires forall b :: b in built ==> Validates(env, Unsigned(b))
    ensures exists b :: b in built && Unsigned(b) == Unsigned(r)
  {
    var b :| b in built && SigningBytes(b) == SigningBytes(r);
    assert SigningValues(Unsigned(b)) == SigningValues(b);
    SigningBytesIff(env, Unsigned(b), r);
  }
}
