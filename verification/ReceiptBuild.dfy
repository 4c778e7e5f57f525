/** Building a terminal receipt from a run, and verifying it against the run it should be about
    (internal/cli/attest.go). */
module ReceiptBuild {

  import opened Wrappers
  import opened Text
  import opened Receipts
  import Grants

  const MILLISECOND := 1_000_000
  const CLOCK_SKEW := 30_000_000_000

  /** A run; times are in nanoseconds and a schema version of 0 asks for the default. */
  datatype RunInput = RunInput(
    provider: string, leaseId: string, slug: string, runId: string, command: seq<string>, commandDisplay: string,
    exitCode: int64, syncMs: int64, commandMs: int64, startedAt: int, endedAt: int, logSha256: string,
    retainedLogSha256: string, logTruncated: bool, evidenceSha256: string, schemaVersion: int64)

  /** The key's holder: the public key, its signatures in base64, and the encoders. */
  datatype Holder = Holder(
    key: string, sign: string -> string, base64: string -> string, formatTime: int -> string,
    jsonLength: Receipt -> nat)

  // ---------- the receipt of a run ----------

  function CommandBytes(command: seq<string>): string { "crabbox-command-v1\0" + Encoded(command) }

  const OMITTED := "command display omitted; exact argv bound by "

  function CommandDisplay(display: string, digest: string): string
  {
    if |display| <= MAX_FIELD then display else "[" + OMITTED + digest + "]"
  }

  function ToMillisecond(t: int): int { t - t % MILLISECOND }

  /** The difference saturates at 64 bits and is cut towards zero. */
  function DurationMs(started: int, ended: int): int64
  {
    if started <= ended then Milliseconds(started, ended)
    else -((if started - ended > TWO_63 then TWO_63 else started - ended) / MILLISECOND)
  }

  function Version(run: RunInput): int64 { if run.schemaVersion == 0 then V3 else run.schemaVersion }

  function Draft(env: Env, h: Holder, run: RunInput): Receipt
  {
    var digest := env.digest(CommandBytes(run.command));
    var started, ended := ToMillisecond(run.startedAt), ToMillisecond(run.endedAt);
    Receipt(Version(run), RECEIPT_TYPE, h.formatTime(started), h.formatTime(ended), run.provider, run.leaseId, run.slug,
            run.runId, CommandDisplay(run.commandDisplay, digest), digest, run.exitCode, run.syncMs, run.commandMs,
            DurationMs(started, ended), run.logSha256, run.retainedLogSha256, run.logTruncated, run.evidenceSha256,
            h.base64(h.key), env.digest(h.key), "")
  }

  function Signed(h: Holder, draft: Receipt): Receipt { draft.(signature := h.sign(SigningBytes(draft))) }

  /** Building refuses what does not validate and what is too large, and signs the rest. */
  function Build(env: Env, h: Holder, run: RunInput): (r: Result<Receipt, string>)
    ensures r.Ok? ==> Validates(env, Unsigned(r.value)) && Unsigned(r.value) == Draft(env, h, run)
    ensures r.Ok? ==> r.value.signature == h.sign(SigningBytes(Unsigned(r.value)))
  {
    var draft := Draft(env, h, run);
    if !Validates(env, draft) then Err("invalid receipt")
    else if h.jsonLength(Signed(h, draft)) > MAX_RECEIPT then Err("receipt too large")
    else Ok(Signed(h, draft))
  }

  // ---------- when building succeeds ----------

  /** A time reads back from its text. */
  predicate TimeReads(env: Env, h: Holder, t: int)
  {
    env.parseTime(h.formatTime(t)) == Some(t) && PresentAndBounded(h.formatTime(t))
  }

  /** What is taken of the encoders: base64 and times read back, digests look like digests. */
  ghost predicate Lawful(env: Env, h: Holder, run: RunInput)
  {
    && |h.key| == 32 && env.base64(h.base64(h.key)) == Some(h.key) && PresentAndBounded(h.base64(h.key))
    && (forall bytes :: ValidSha256Digest(env.digest(bytes)))
    && TimeReads(env, h, ToMillisecond(run.startedAt)) && TimeReads(env, h, ToMillisecond(run.endedAt))
  }

  predicate TimingOk(run: RunInput)
  {
    && ToMillisecond(run.startedAt) <= ToMillisecond(run.endedAt)
    && run.exitCode >= 0 && run.syncMs >= 0 && run.commandMs >= 0
  }

  predicate EvidenceOk(run: RunInput)
  {
    if run.evidenceSha256 == "" then Version(run) < V3
    else Version(run) >= V3 && ValidLowercaseHexDigest(run.evidenceSha256)
  }

  /** A run that can be attested, by its own fields. */
  predicate Attestable(run: RunInput)
  {
    && (Version(run) == V3 || Version(run) == V2)
    && PresentAndBounded(run.provider) && PresentAndBounded(run.runId)
    && (PresentAndBounded(run.commandDisplay) || |run.commandDisplay| > MAX_FIELD)
    && |run.leaseId| <= MAX_IDENTITY && |run.slug| <= MAX_IDENTITY
    && ValidSha256Digest(run.logSha256) && ValidSha256Digest(run.retainedLogSha256)
    && TimingOk(run) && EvidenceOk(run)
  }

  lemma TrimmedEnds(s: string)
    requires s != "" && !Blank(s[0]) && !Blank(s[|s| - 1])
    ensures TrimSpace(s) == s
  {
  }

  lemma DigestPresent(s: string)
    requires ValidSha256Digest(s)
    ensures PresentAndBounded(s)
  {
    assert s[0] == s[..7][0] == 's';
    assert HexDigit(s[|s| - 1], true);
    TrimmedEnds(s);
  }

  /** However long a command is, its display fits. */
  lemma DisplayPresent(display: string, digest: string)
    requires ValidSha256Digest(digest)
    ensures PresentAndBounded(CommandDisplay(display, digest)) <==> PresentAndBounded(display) || |display| > MAX_FIELD
  {
    if |display| > MAX_FIELD {
      var shown := CommandDisplay(display, digest);
      assert shown[0] == '[' && shown[|shown| - 1] == ']';
      TrimmedEnds(shown);
    }
  }

  /** The duration of a draft always matches its times, so only their order can be refused. */
  lemma DraftTimes(env: Env, h: Holder, run: RunInput)
    requires Lawful(env, h, run)
    ensures TimesAgree(env, Draft(env, h, run)) <==> TimingOk(run)
  {
  }

  lemma RequiredIff(r: Receipt)
    ensures (forall i :: 0 <= i < |RequiredFields(r)| ==> PresentAndBounded(RequiredFields(r)[i])) <==>
            && PresentAndBounded(r.startedAt) && PresentAndBounded(r.endedAt) && PresentAndBounded(r.provider)
            && PresentAndBounded(r.runId) && PresentAndBounded(r.command) && PresentAndBounded(r.commandSha256)
            && PresentAndBounded(r.logSha256) && PresentAndBounded(r.retainedLogSha256)
            && PresentAndBounded(r.publicKey) && PresentAndBounded(r.signer)
  {
    var f := RequiredFields(r);
    assert f[0] == r.startedAt && f[1] == r.endedAt && f[2] == r.provider && f[3] == r.runId && f[4] == r.command;
    assert f[5] == r.commandSha256 && f[6] == r.logSha256 && f[7] == r.retainedLogSha256 && f[8] == r.publicKey
        && f[9] == r.signer;
  }

  lemma DraftPresent(env: Env, h: Holder, run: RunInput)
    requires Lawful(env, h, run) && ValidSha256Digest(run.logSha256) && ValidSha256Digest(run.retainedLogSha256)
    ensures var r := Draft(env, h, run);
            (forall i :: 0 <= i < |RequiredFields(r)| ==> PresentAndBounded(RequiredFields(r)[i])) <==>
            PresentAndBounded(run.provider) && PresentAndBounded(run.runId) &&
            (PresentAndBounded(run.commandDisplay) || |run.commandDisplay| > MAX_FIELD)
  {
    var r := Draft(env, h, run);
    RequiredIff(r);
    DigestPresent(r.commandSha256);
    DigestPresent(r.logSha256);
    DigestPresent(r.retainedLogSha256);
    DigestPresent(r.signer);
    DisplayPresent(run.commandDisplay, r.commandSha256);
  }

  /** A receipt is built exactly for the runs that can be attested and whose receipt is not too large. */
  lemma BuildIff(env: Env, h: Holder, run: RunInput)
    requires Lawful(env, h, run)
    ensures Build(env, h, run).Ok? <==>
            Attestable(run) && h.jsonLength(Signed(h, Draft(env, h, run))) <= MAX_RECEIPT
  {
    var r := Draft(env, h, run);
    DraftTimes(env, h, run);
    if ValidSha256Digest(run.logSha256) && ValidSha256Digest(run.retainedLogSha256) {
      DraftPresent(env, h, run);
    }
    assert KeyAgrees(env, r);
    assert EvidenceAgrees(r) <==> EvidenceOk(run);
  }

  // ---------- what is built is accepted ----------

  /** Signatures of the key's holder verify. */
  ghost predicate SignsWell(env: Env, h: Holder)
  {
    forall m :: h.sign(m) != "" && env.base64(h.sign(m)).Some? && |env.base64(h.sign(m)).value| == 64
                && env.verify(h.key, m, env.base64(h.sign(m)).value)
  }

  lemma SigningIgnoresSignature(r: Receipt, signature: string)
    ensures SigningBytes(r.(signature := signature)) == SigningBytes(r)
  {
    assert SigningValues(r.(signature := signature)) == SigningValues(r);
  }

  lemma BuiltIsAccepted(env: Env, h: Holder, run: RunInput)
    requires Lawful(env, h, run) && SignsWell(env, h) && Build(env, h, run).Ok?
    ensures Accepts(env, Build(env, h, run).value)
  {
    var draft := Draft(env, h, run);
    var r := Signed(h, draft);
    SigningIgnoresSignature(draft, r.signature);
    assert RequiredFields(r) == RequiredFields(draft);
    assert KeyAgrees(env, r);
  }

  // ---------- verifying against a run ----------

  /** Addition of signed 64-bit integers. */
  function Add64(a: int64, b: int64): int64
  {
    var sum := a as int + b as int;
    if sum >= TWO_63 then sum - 2 * TWO_63 else if sum < -TWO_63 then sum + 2 * TWO_63 else sum
  }

  /** The receipt is accepted and is about this run; parts of a run that are not known are left open. */
  predicate Verifies(env: Env, r: Receipt, run: RunInput)
  {
    && Accepts(env, r)
    && r.provider == run.provider && r.leaseId == run.leaseId && r.slug == run.slug && r.runId == run.runId
    && r.commandSha256 == env.digest(CommandBytes(run.command))
    && r.exitCode == run.exitCode && r.syncMs == run.syncMs && r.commandMs == run.commandMs
    && env.parseTime(r.startedAt).value == run.startedAt
    && (run.endedAt == Grants.ZERO_TIME || env.parseTime(r.endedAt).value <= run.endedAt + CLOCK_SKEW)
    && r.durationMs >= Add64(run.syncMs, run.commandMs)
    && (run.logSha256 == "" || r.logSha256 == run.logSha256)
    && (run.retainedLogSha256 == "" || r.retainedLogSha256 == run.retainedLogSha256)
    && r.logTruncated == run.logTruncated
    && (run.evidenceSha256 == "" || r.evidenceSha256 == run.evidenceSha256)
  }

  /** A receipt verifies against the very run it was built from exactly when that run starts on a whole
      millisecond and lasts at least as long as its parts. */
  lemma BuiltVerifiesIff(env: Env, h: Holder, run: RunInput)
    requires Lawful(env, h, run) && SignsWell(env, h) && Build(env, h, run).Ok?
    ensures Verifies(env, Build(env, h, run).value, run) <==>
            run.startedAt % MILLISECOND == 0 &&
            DurationMs(ToMillisecond(run.startedAt), ToMillisecond(run.endedAt)) >= Add64(run.syncMs, run.commandMs)
  {
    BuiltIsAccepted(env, h, run);
  }

  ghost predicate ShortCommand(command: seq<string>)
  {
    forall i :: 0 <= i < |command| ==> |command[i]| < TWO_32
  }

  /** A receipt built for one run verifies against another only if they ran the same arguments, unless
      two texts share a digest. */
  lemma VerifiedCommand(env: Env, h: Holder, run: RunInput, other: RunInput)
    requires Build(env, h, run).Ok? && Verifies(env, Build(env, h, run).value, other)
    requires ShortCommand(run.command) && ShortCommand(other.command)
    requires env.digest(CommandBytes(run.command)) == env.digest(CommandBytes(other.command)) ==>
               CommandBytes(run.command) == CommandBytes(other.command)
    ensures run.command == other.command
  {
    var prefix := "crabbox-command-v1\0";
    assert CommandBytes(run.command)[|prefix|..] == Encoded(run.command);
    assert CommandBytes(other.command)[|prefix|..] == Encoded(other.command);
    DecodedEncoded(run.command);
    DecodedEncoded(other.command);
  }
}
