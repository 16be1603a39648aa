/**
 * One-time passwords: `OtpVerification` rows and `OtpService`, which issues a
 * code (storing only its HMAC), sends it by SMS, and checks submitted codes
 * against a small state machine with an attempt counter and a lock.
 */
module Otp {
  import opened Wrappers
  import opened Strings
  import opened Platform
  import opened Templates
  import SmsConfig

  datatype Status = Pending | Verified | Expired | Locked

  /** A row of `otp_verifications` (request IP, user agent and meta are stored verbatim and left out). */
  datatype OtpVerification = OtpVerification(
    id: string,
    userId: Option<nat>,
    mobileE164: string,
    purpose: string,
    codeHash: string,
    expiresAt: int,
    status: Status,
    attempts: nat,
    maxAttempts: nat,
    sendCount: nat,
    lastSentAt: Option<int>,
    verifiedAt: Option<int>,
    externalRef: Option<string>)

  /** `isExpired()`: strictly past the expiry instant. */
  predicate IsExpired(v: OtpVerification, now: int)
  {
    now > v.expiresAt
  }

  /** `isTerminal()`: the code can no longer be verified. */
  predicate IsTerminal(v: OtpVerification)
  {
    v.status == Verified || v.status == Expired || v.status == Locked
  }

  /** The `otp.*` configuration the service reads (the HMAC pepper is inside the `hmac` parameter). */
  datatype OtpConfig = OtpConfig(
    digits: nat,
    ttlSeconds: nat,
    maxAttempts: nat,
    sendSms: bool,
    senderId: Option<string>,
    messageTemplate: Option<string>,
    appName: Option<string>)

  const ConfiguredDigits := 6
  const ConfiguredTtlSeconds := 300
  const ConfiguredMaxAttempts := 5
  /** The templates, written as text and placeholders: "Your {purpose} code is: {code}. Valid for {minutes} minutes." */
  const BuiltInTemplate := "Your " + "{purpose}" + " code is: " + "{code}" + ". Valid for " + "{minutes}" + " minutes."
  const ConfiguredTemplate := "Your " + "{purpose}" + " code is: " + "{code}" + ". Valid for " + "{minutes}"
                              + " minutes. Do not share this code."
  const BuiltInAppName := "Text Commander"

  // ---------------------------------------------------------------- verification

  datatype Reason = NotFound | AlreadyVerified | LockedOut | ExpiredCode | VerifiedOk | InvalidCode

  /** The array `verifyOtp` returns; `attempts` and `status` are present only for an invalid code. */
  datatype VerifyResult = VerifyResult(ok: bool, reason: Reason, attempts: Option<nat>, status: Option<Status>)

  /**
   * One `verifyOtp` call on an existing row, given the HMAC of the submitted
   * code: the result and the row as it is afterwards. The checks run in
   * order: verified, locked, expired, attempt cap, hash comparison.
   */
  function VerifyStep(v: OtpVerification, suppliedHash: string, now: int): (OtpVerification, VerifyResult)
  {
    if v.status == Verified then (v, VerifyResult(false, AlreadyVerified, None, None))
    else if v.status == Locked then (v, VerifyResult(false, LockedOut, None, None))
    else if IsExpired(v, now) then (v.(status := Expired), VerifyResult(false, ExpiredCode, None, None))
    else if v.attempts >= v.maxAttempts then (v.(status := Locked), VerifyResult(false, LockedOut, None, None))
    else if v.codeHash == suppliedHash then
      (v.(status := Verified, verifiedAt := Some(now)), VerifyResult(true, VerifiedOk, None, None))
    else
      var w := v.(attempts := v.attempts + 1);
      var w' := if w.attempts >= w.maxAttempts then w.(status := Locked) else w;
      (w', VerifyResult(false, InvalidCode, Some(w'.attempts), Some(w'.status)))
  }

  /** `verifyOtp` on the whole table: an unknown id is `not_found` and changes nothing. */
  function Verify(rows: map<string, OtpVerification>, id: string, suppliedHash: string, now: int)
    : (map<string, OtpVerification>, VerifyResult)
  {
    if id !in rows then (rows, VerifyResult(false, NotFound, None, None))
    else
      var (after, res) := VerifyStep(rows[id], suppliedHash, now);
      (rows[id := after], res)
  }

  /** The first matching check decides the outcome, in the order the service runs them. */
  lemma VerifyPrecedence(v: OtpVerification, h: string, now: int)
    ensures var res := VerifyStep(v, h, now).1;
            var open := v.status != Verified && v.status != Locked;
            && (res.reason == AlreadyVerified <==> v.status == Verified)
            && (res.reason == ExpiredCode <==> open && IsExpired(v, now))
            && (res.reason == LockedOut <==>
                  v.status == Locked || (open && !IsExpired(v, now) && v.attempts >= v.maxAttempts))
            && (res.ok <==> res.reason == VerifiedOk)
            && (res.ok <==> open && !IsExpired(v, now) && v.attempts < v.maxAttempts && v.codeHash == h)
            && (res.reason == InvalidCode <==>
                  open && !IsExpired(v, now) && v.attempts < v.maxAttempts && v.codeHash != h)
  {
  }

  /** A correct, timely code on an open row verifies it and leaves the attempt count alone. */
  lemma CorrectCodeVerifies(v: OtpVerification, now: int)
    requires v.status != Verified && v.status != Locked
    requires !IsExpired(v, now) && v.attempts < v.maxAttempts
    ensures var (after, res) := VerifyStep(v, v.codeHash, now);
            res == VerifyResult(true, VerifiedOk, None, None)
            && after.status == Verified && after.verifiedAt == Some(now) && after.attempts == v.attempts
  {
  }

  /**
   * A wrong code adds exactly one attempt; the row locks iff the new count
   * reaches the maximum, and the result reports the new count and status.
   */
  lemma WrongCodeCounts(v: OtpVerification, h: string, now: int)
    requires v.status != Verified && v.status != Locked
    requires !IsExpired(v, now) && v.attempts < v.maxAttempts && h != v.codeHash
    ensures var (after, res) := VerifyStep(v, h, now);
            && after.attempts == v.attempts + 1
            && (after.status == Locked <==> v.attempts + 1 >= v.maxAttempts)
            && (after.status != Locked ==> after.status == v.status)
            && res == VerifyResult(false, InvalidCode, Some(after.attempts), Some(after.status))
  {
  }

  /** Verified and locked rows are final: every later call reports them and changes nothing. */
  lemma TerminalSticky(v: OtpVerification, h: string, now: int)
    requires v.status == Verified || v.status == Locked
    ensures VerifyStep(v, h, now).0 == v
    ensures VerifyStep(v, h, now).1.reason == (if v.status == Verified then AlreadyVerified else LockedOut)
  {
  }

  /** Past its expiry even the right code fails; the row becomes expired with its attempts untouched. */
  lemma ExpiredBeatsCorrectCode(v: OtpVerification, now: int)
    requires v.status != Verified && v.status != Locked && IsExpired(v, now)
    ensures var (after, res) := VerifyStep(v, v.codeHash, now);
            res.reason == ExpiredCode && !res.ok && after.status == Expired && after.attempts == v.attempts
  {
  }

  /** At exactly the expiry instant the code is still accepted. */
  lemma NotExpiredAtDeadline(v: OtpVerification)
    requires v.status == Pending && v.attempts < v.maxAttempts
    ensures VerifyStep(v, v.codeHash, v.expiresAt).1.ok
    ensures !VerifyStep(v, v.codeHash, v.expiresAt + 1).1.ok
  {
  }

  /** Every status a call writes is terminal; a pending row is not terminal. */
  lemma WrittenStatusesTerminal(v: OtpVerification, h: string, now: int)
    ensures var after := VerifyStep(v, h, now).0;
            after.status != v.status ==> IsTerminal(after)
    ensures v.status == Pending ==> !IsTerminal(v)
  {
  }

  /** The row invariant the service keeps: attempts never exceed the maximum, and a pending row is below it. */
  predicate AttemptsInvariant(v: OtpVerification)
  {
    v.attempts <= v.maxAttempts && (v.status == Pending ==> v.attempts < v.maxAttempts)
  }

  lemma VerifyKeepsAttemptsInvariant(v: OtpVerification, h: string, now: int)
    requires AttemptsInvariant(v)
    ensures AttemptsInvariant(VerifyStep(v, h, now).0)
  {
  }

  /** Under the invariant, the up-front attempt cap never fires on a pending row: only a wrong code locks it. */
  lemma AttemptCapOnlyAfterWrongCodes(v: OtpVerification, h: string, now: int)
    requires AttemptsInvariant(v) && v.status == Pending && !IsExpired(v, now)
    ensures VerifyStep(v, h, now).1.reason != LockedOut
  {
  }

  /** Submitting a sequence of codes one after another. */
  function VerifyMany(v: OtpVerification, hashes: seq<string>, now: int): OtpVerification
    decreases |hashes|
  {
    if hashes == [] then v else VerifyMany(VerifyStep(v, hashes[0], now).0, hashes[1..], now)
  }

  /**
   * Starting from `k` wrong attempts on a pending row, `max - k` more wrong
   * codes lock it, with the attempt count at the maximum.
   */
  lemma {:induction false} WrongCodesLock(v: OtpVerification, hashes: seq<string>, now: int)
    requires v.status == Pending && !IsExpired(v, now)
    requires v.attempts + |hashes| == v.maxAttempts && |hashes| >= 1
    requires forall i :: 0 <= i < |hashes| ==> hashes[i] != v.codeHash
    ensures VerifyMany(v, hashes, now).status == Locked
    ensures VerifyMany(v, hashes, now).attempts == v.maxAttempts
    decreases |hashes|
  {
    var w := VerifyStep(v, hashes[0], now).0;
    if |hashes| > 1 {
      assert w.status == Pending && w.codeHash == v.codeHash && w.expiresAt == v.expiresAt;
      WrongCodesLock(w, hashes[1..], now);
    }
  }

  /** After `max_attempts` wrong codes a fresh row is locked, and then the right code is refused as locked. */
  lemma LockedAfterMaxWrongCodes(v: OtpVerification, hashes: seq<string>, now: int)
    requires v.status == Pending && v.attempts == 0 && v.maxAttempts >= 1 && !IsExpired(v, now)
    requires |hashes| == v.maxAttempts && forall i :: 0 <= i < |hashes| ==> hashes[i] != v.codeHash
    ensures VerifyStep(VerifyMany(v, hashes, now), v.codeHash, now).1 == VerifyResult(false, LockedOut, None, None)
  {
    WrongCodesLock(v, hashes, now);
  }

  // ---------------------------------------------------------------- issuing

  /** `ceil(ttl / 60)`: the whole minutes a TTL spans, rounded up. */
  function CeilMinutes(ttl: nat): (m: nat)
    ensures m * 60 >= ttl
    ensures m == 0 || (m - 1) * 60 < ttl
  {
    (ttl + 59) / 60
  }

  /**
   * `buildOtpMessage`: `str_replace` of `{code}`, `{purpose}`, `{minutes}` and
   * `{app_name}`, one after the other, in the configured template.
   */
  function BuildOtpMessage(code: string, purpose: string, ttl: nat, cfg: OtpConfig): string
  {
    var template := cfg.messageTemplate.OrElse(BuiltInTemplate);
    var appName := cfg.appName.OrElse(BuiltInAppName);
    var m1 := ReplaceAll(template, "{code}", code);
    var m2 := ReplaceAll(m1, "{purpose}", purpose);
    var m3 := ReplaceAll(m2, "{minutes}", NatToString(CeilMinutes(ttl)));
    ReplaceAll(m3, "{app_name}", appName)
  }

  lemma DigitsBraceFree(s: string)
    requires forall i :: 0 <= i < |s| ==> IsDigit(s[i])
    ensures BraceFree(s)
  {
    forall i | 0 <= i < |s| ensures s[i] != '{' && s[i] != '}' {
      assert IsDigit(s[i]);
    }
  }

  /** The OTP templates' shape: text, slot, text, slot, text, slot, text (right-nested). */
  function Shape(a: string, p: string, b: string, q: string, c: string, m: string, e: string): string
  {
    a + (p + (b + (q + (c + (m + e)))))
  }

  /**
   * The four `str_replace` calls of `buildOtpMessage`, in their order (second
   * slot, first slot, third slot, then a name the template lacks), fill a
   * template shaped like the OTP ones when nothing involved contains braces.
   */
  lemma RenderShape(a: string, p: string, b: string, q: string, c: string, m: string, e: string, x: string,
                    vp: string, vq: string, vm: string, vx: string)
    requires BraceFree(a) && BraceFree(b) && BraceFree(c) && BraceFree(e)
    requires BraceFree(p) && BraceFree(q) && BraceFree(m) && BraceFree(x)
    requires BraceFree(vp) && BraceFree(vq) && BraceFree(vm)
    requires p != q && p != m && q != m && x != p && x != q && x != m
    ensures var pp, pq, pm := Placeholder(Single, p), Placeholder(Single, q), Placeholder(Single, m);
            ReplaceAll(ReplaceAll(ReplaceAll(ReplaceAll(Shape(a, pp, b, pq, c, pm, e),
                                                        pq, vq), pp, vp), pm, vm), Placeholder(Single, x), vx)
            == Shape(a, vp, b, vq, c, vm, e)
  {
    var pp, pq, pm, px := Placeholder(Single, p), Placeholder(Single, q), Placeholder(Single, m), Placeholder(Single, x);
    var t0, t1, t2, t3 := Shape(a, pp, b, pq, c, pm, e), Shape(a, pp, b, vq, c, pm, e),
                          Shape(a, vp, b, vq, c, pm, e), Shape(a, vp, b, vq, c, vm, e);
    StepSecond(a, p, b, q, c, m, e, vq);
    StepFirst(a, p, b, vq, c, m, e, vp);
    StepThird(a, vp, b, vq, c, m, e, vm);
    StepAbsent(t3, x, vx);
    Chain(t0, t1, t2, t3, t3, pq, pp, pm, px, vq, vp, vm, vx);
  }

  lemma Chain(t0: string, t1: string, t2: string, t3: string, t4: string,
              p1: string, p2: string, p3: string, p4: string, v1: string, v2: string, v3: string, v4: string)
    requires |p1| > 0 && |p2| > 0 && |p3| > 0 && |p4| > 0
    requires ReplaceAll(t0, p1, v1) == t1 && ReplaceAll(t1, p2, v2) == t2
    requires ReplaceAll(t2, p3, v3) == t3 && ReplaceAll(t3, p4, v4) == t4
    ensures ReplaceAll(ReplaceAll(ReplaceAll(ReplaceAll(t0, p1, v1), p2, v2), p3, v3), p4, v4) == t4
  {
  }

  lemma StepSecond(a: string, p: string, b: string, q: string, c: string, m: string, e: string, vq: string)
    requires BraceFree(a) && BraceFree(b) && BraceFree(c) && BraceFree(e)
    requires BraceFree(p) && BraceFree(q) && BraceFree(m) && BraceFree(vq) && p != q && m != q
    ensures var pp, pq, pm := Placeholder(Single, p), Placeholder(Single, q), Placeholder(Single, m);
            ReplaceAll(Shape(a, pp, b, pq, c, pm, e), pq, vq) == Shape(a, pp, b, vq, c, pm, e)
  {
    var pp, pq, pm := Placeholder(Single, p), Placeholder(Single, q), Placeholder(Single, m);
    var r5 := pm + e;
    var r4 := c + r5;
    var r3 := pq + r4;
    var r2 := b + r3;
    var r1 := pp + r2;
    PassText(e, e, [], pq, vq);
    PassSlot(r5, m, e, q, vq);
    PassText(r4, c, r5, pq, vq);
    ReplaceAtHead(r4, pq, vq);
    PassText(r2, b, r3, pq, vq);
    PassSlot(r1, p, r2, q, vq);
    PassText(a + r1, a, r1, pq, vq);
  }

  lemma StepFirst(a: string, p: string, b: string, vq: string, c: string, m: string, e: string, vp: string)
    requires BraceFree(a) && BraceFree(b) && BraceFree(c) && BraceFree(e)
    requires BraceFree(p) && BraceFree(vq) && BraceFree(m) && BraceFree(vp) && p != m
    ensures var pp, pm := Placeholder(Single, p), Placeholder(Single, m);
            ReplaceAll(Shape(a, pp, b, vq, c, pm, e), pp, vp) == Shape(a, vp, b, vq, c, pm, e)
  {
    var pp, pm := Placeholder(Single, p), Placeholder(Single, m);
    var r5 := pm + e;
    var r4 := c + r5;
    var r3 := vq + r4;
    var r2 := b + r3;
    PassText(e, e, [], pp, vp);
    PassSlot(r5, m, e, p, vp);
    PassText(r4, c, r5, pp, vp);
    PassText(r3, vq, r4, pp, vp);
    PassText(r2, b, r3, pp, vp);
    ReplaceAtHead(r2, pp, vp);
    PassText(a + (pp + r2), a, pp + r2, pp, vp);
  }

  lemma StepThird(a: string, vp: string, b: string, vq: string, c: string, m: string, e: string, vm: string)
    requires BraceFree(a) && BraceFree(b) && BraceFree(c) && BraceFree(e)
    requires BraceFree(vp) && BraceFree(vq) && BraceFree(m) && BraceFree(vm)
    ensures var pm := Placeholder(Single, m);
            ReplaceAll(Shape(a, vp, b, vq, c, pm, e), pm, vm) == Shape(a, vp, b, vq, c, vm, e)
  {
    var pm := Placeholder(Single, m);
    PassText(e, e, [], pm, vm);
    ReplaceAtHead(e, pm, vm);
    var r4 := c + (pm + e);
    var r3 := vq + r4;
    var r2 := b + r3;
    var r1 := vp + r2;
    PassText(r4, c, pm + e, pm, vm);
    PassText(r3, vq, r4, pm, vm);
    PassText(r2, b, r3, pm, vm);
    PassText(r1, vp, r2, pm, vm);
    PassText(a + r1, a, r1, pm, vm);
  }

  lemma StepAbsent(t: string, x: string, vx: string)
    requires BraceFree(t)
    ensures ReplaceAll(t, Placeholder(Single, x), vx) == t
  {
    PassText(t, t, [], Placeholder(Single, x), vx);
  }

  lemma EmptyReplace(pat: string, rep: string)
    requires |pat| > 0
    ensures ReplaceAll([], pat, rep) == []
  {
  }

  /** Text without braces passes through a placeholder replacement. */
  lemma PassText(s: string, u: string, w: string, pat: string, rep: string)
    requires s == u + w && BraceFree(u) && |pat| > 0 && pat[0] == '{'
    ensures ReplaceAll(s, pat, rep) == u + ReplaceAll(w, pat, rep)
    ensures w == [] ==> ReplaceAll(s, pat, rep) == u
  {
    ReplaceSkipsPrefix(u, w, pat, rep);
    if w == [] {
      EmptyReplace(pat, rep);
    }
  }

  /** A different placeholder passes through a placeholder replacement. */
  lemma PassSlot(s: string, n: string, w: string, name: string, rep: string)
    requires s == Placeholder(Single, n) + w && BraceFree(n) && BraceFree(name) && n != name
    ensures ReplaceAll(s, Placeholder(Single, name), rep) == Placeholder(Single, n) + ReplaceAll(w, Placeholder(Single, name), rep)
  {
    assert ValidDelims(Single) && PieceBraceFree(Slot(n));
    NoMatchInPiece(Single, Slot(n), w, name);
    assert ShowPiece(Single, Slot(n)) == Placeholder(Single, n);
    NoMatchPrefix(Placeholder(Single, n), w, Placeholder(Single, name), rep);
  }

  lemma PlaceholderTexts()
    ensures Placeholder(Single, "code") == "{code}" && Placeholder(Single, "purpose") == "{purpose}"
    ensures Placeholder(Single, "minutes") == "{minutes}" && Placeholder(Single, "app_name") == "{app_name}"
  {
    assert forall i | 0 <= i < 6 :: Placeholder(Single, "code")[i] == "{code}"[i];
    assert forall i | 0 <= i < 9 :: Placeholder(Single, "purpose")[i] == "{purpose}"[i];
    assert forall i | 0 <= i < 9 :: Placeholder(Single, "minutes")[i] == "{minutes}"[i];
    assert forall i | 0 <= i < 10 :: Placeholder(Single, "app_name")[i] == "{app_name}"[i];
  }

  /**
   * With the built-in template, the message reads "Your {purpose} code is:
   * {code}. Valid for {minutes} minutes." filled in, when the purpose has no
   * braces, whatever the application name.
   */
  lemma BuiltInMessage(code: string, purpose: string, ttl: nat, cfg: OtpConfig)
    requires cfg.messageTemplate.None? && BraceFree(purpose)
    requires forall i :: 0 <= i < |code| ==> IsDigit(code[i])
    ensures BuildOtpMessage(code, purpose, ttl, cfg)
            == "Your " + (purpose + (" code is: " + (code + (". Valid for " + (NatToString(CeilMinutes(ttl)) + " minutes.")))))
  {
    DigitsBraceFree(code);
    DigitsBraceFree(NatToString(CeilMinutes(ttl)));
    PlaceholderTexts();
    assert BuiltInTemplate == Shape("Your ", "{purpose}", " code is: ", "{code}", ". Valid for ", "{minutes}", " minutes.");
    RenderShape("Your ", "purpose", " code is: ", "code", ". Valid for ", "minutes", " minutes.", "app_name",
                purpose, code, NatToString(CeilMinutes(ttl)), cfg.appName.OrElse(BuiltInAppName));
  }

  /** The same for the template shipped in the configuration file. */
  lemma ConfiguredMessage(code: string, purpose: string, ttl: nat, cfg: OtpConfig)
    requires cfg.messageTemplate == Some(ConfiguredTemplate) && BraceFree(purpose)
    requires forall i :: 0 <= i < |code| ==> IsDigit(code[i])
    ensures BuildOtpMessage(code, purpose, ttl, cfg)
            == "Your " + (purpose + (" code is: " + (code + (". Valid for " + (NatToString(CeilMinutes(ttl))
               + " minutes. Do not share this code.")))))
  {
    DigitsBraceFree(code);
    DigitsBraceFree(NatToString(CeilMinutes(ttl)));
    PlaceholderTexts();
    assert ConfiguredTemplate
        == Shape("Your ", "{purpose}", " code is: ", "{code}", ". Valid for ", "{minutes}", " minutes. Do not share this code.");
    RenderShape("Your ", "purpose", " code is: ", "code", ". Valid for ", "minutes", " minutes. Do not share this code.",
                "app_name", purpose, code, NatToString(CeilMinutes(ttl)), cfg.appName.OrElse(BuiltInAppName));
  }


  /** The settings that decide an OTP's sender. */
  datatype SenderContext = SenderContext(
    users: set<nat>,
    configRows: SmsConfig.ConfigRows,
    sms: SmsDefaults,
    inConsole: bool)

  /** `if ($userId) { $user = User::find($userId); if ($user) … }`: a truthy id naming an existing user. */
  predicate KnownUser(userId: Option<nat>, ctx: SenderContext)
  {
    userId.Some? && userId.value != 0 && userId.value in ctx.users
  }

  /** The closing `otp.sender_id ?? sms.default_sender_id ?? 'TXTCMDR'`. */
  function OtpFallbackSender(otpSenderId: Option<string>, ctx: SenderContext): string
  {
    otpSenderId.OrElse(ctx.sms.defaultSenderId.OrElse(FallbackSenderId))
  }

  /**
   * `getSenderIdForUser`: the `default_sender_id` the SMS configuration
   * service reports for a known user, when it is truthy; otherwise the
   * fallback `otp.sender_id ?? sms.default_sender_id ?? TXTCMDR`. The
   * service already puts `sms.default_sender_id` in place of a usable row's
   * missing sender, and reports it in the console, so in those cases a
   * truthy `sms.default_sender_id` wins over `otp.sender_id`.
   */
  function SenderIdForUser(userId: Option<nat>, otpSenderId: Option<string>, ctx: SenderContext): (r: string)
    ensures !KnownUser(userId, ctx) ==> r == OtpFallbackSender(otpSenderId, ctx)
    ensures KnownUser(userId, ctx) && SmsConfig.UsableRow(ctx.configRows, userId.value, SmsConfig.EngageSpark) ==>
              var own := ctx.configRows[(userId.value, SmsConfig.EngageSpark)].defaultSenderId;
              && (own.Some? ==> r == if IsFalsy(own.value) then OtpFallbackSender(otpSenderId, ctx) else own.value)
              && (own.None? ==>
                    r == if Truthy(ctx.sms.defaultSenderId) then ctx.sms.defaultSenderId.value
                         else OtpFallbackSender(otpSenderId, ctx))
    ensures KnownUser(userId, ctx) && !SmsConfig.UsableRow(ctx.configRows, userId.value, SmsConfig.EngageSpark) ==>
              && (ctx.inConsole ==>
                    r == if Truthy(ctx.sms.defaultSenderId) then ctx.sms.defaultSenderId.value
                         else OtpFallbackSender(otpSenderId, ctx))
              && (!ctx.inConsole ==> r == OtpFallbackSender(otpSenderId, ctx))
  {
    var fallback := OtpFallbackSender(otpSenderId, ctx);
    if KnownUser(userId, ctx) then
      var c := SmsConfig.GetEngageSparkConfig(userId, None, ctx.configRows, ctx.sms, ctx.inConsole);
      if c.defaultSenderId.Some? && !IsFalsy(c.defaultSenderId.value) then c.defaultSenderId.value else fallback
    else
      fallback
  }

  /**
   * A user whose own settings carry no default sender gets the application's
   * SMS default sender ahead of `otp.sender_id`.
   */
  lemma SmsDefaultBeforeOtpSender(user: nat, ctx: SenderContext, otpSender: string)
    requires user != 0 && user in ctx.users && !ctx.inConsole
    requires SmsConfig.UsableRow(ctx.configRows, user, SmsConfig.EngageSpark)
    requires ctx.configRows[(user, SmsConfig.EngageSpark)].defaultSenderId.None?
    requires ctx.sms.defaultSenderId == Some("APP")
    ensures SenderIdForUser(Some(user), Some(otpSender), ctx) == "APP"
  {
  }

  /**
   * `generateCode($digits)`: `random_int(10^(d-1), 10^d - 1)` as a string;
   * the random choice is left open, so the contract holds for every outcome.
   */
  method GenerateCode(digits: nat) returns (code: string)
    requires digits >= 1
    ensures |code| == digits && code[0] != '0'
    ensures forall i :: 0 <= i < |code| ==> IsDigit(code[i])
  {
    var lo := Pow10(digits - 1);
    var hi := Pow10(digits) - 1;
    assert lo <= hi by { assert Pow10(digits) == 10 * lo; }
    var n: nat :| lo <= n <= hi;
    code := NatToString(n);
    NatToStringLength(n, digits);
  }

  /** The row `requestOtp` creates (send_count takes the column default 0). */
  function NewVerification(id: string, mobile: string, purpose: string, userId: Option<nat>,
                           externalRef: Option<string>, codeHash: string, now: int, cfg: OtpConfig): OtpVerification
  {
    OtpVerification(id, userId, mobile, purpose, codeHash, now + cfg.ttlSeconds, Pending, 0,
                    cfg.maxAttempts, 0, None, None, externalRef)
  }

  /** The `otp_verifications` table, keyed by UUID. */
  class OtpStore {
    var rows: map<string, OtpVerification>

    /** Every stored row keeps the attempts invariant. */
    predicate Valid()
      reads this
    {
      forall id :: id in rows ==> AttemptsInvariant(rows[id])
    }

    constructor ()
      ensures rows == map[] && Valid()
    {
      rows := map[];
    }

    /**
     * `requestOtp`: issue a code, store only its HMAC, and when sending is
     * enabled queue one SMS and count the send.
     */
    method RequestOtp(id: string, mobile: string, purpose: string, userId: Option<nat>,
                      externalRef: Option<string>, now: int, cfg: OtpConfig,
                      hmac: string -> string, ctx: SenderContext)
      returns (code: string, expiresIn: nat, dispatched: seq<Job>)
      requires id !in rows && cfg.digits >= 1
      modifies this
      ensures |code| == cfg.digits && code[0] != '0' && forall i :: 0 <= i < |code| ==> IsDigit(code[i])
      ensures expiresIn == cfg.ttlSeconds
      ensures var created := NewVerification(id, mobile, purpose, userId, externalRef, hmac(code), now, cfg);
              && (!cfg.sendSms ==> rows == old(rows)[id := created] && dispatched == [])
              && (cfg.sendSms ==>
                    && rows == old(rows)[id := created.(sendCount := 1, lastSentAt := Some(now))]
                    && dispatched == [SendSms(mobile, BuildOtpMessage(code, purpose, cfg.ttlSeconds, cfg),
                                              SenderIdForUser(userId, cfg.senderId, ctx), None, userId)])
      ensures old(Valid()) && cfg.maxAttempts >= 1 ==> Valid()
      ensures cfg.maxAttempts == 0 ==> !AttemptsInvariant(rows[id])
    {
      code := GenerateCode(cfg.digits);
      var v := NewVerification(id, mobile, purpose, userId, externalRef, hmac(code), now, cfg);
      rows := rows[id := v];
      dispatched := [];
      if cfg.sendSms {
        dispatched := SendOtpSms(id, code, cfg.ttlSeconds, userId, now, cfg, ctx);
      }
      expiresIn := cfg.ttlSeconds;
    }

    /** `sendOtpSms`: queue the message and bump the send counter. */
    method SendOtpSms(id: string, code: string, ttl: nat, userId: Option<nat>, now: int,
                      cfg: OtpConfig, ctx: SenderContext) returns (dispatched: seq<Job>)
      requires id in rows
      modifies this
      ensures var v := old(rows)[id];
              && rows == old(rows)[id := v.(sendCount := v.sendCount + 1, lastSentAt := Some(now))]
              && dispatched == [SendSms(v.mobileE164, BuildOtpMessage(code, v.purpose, ttl, cfg),
                                        SenderIdForUser(userId, cfg.senderId, ctx), None, userId)]
      ensures old(Valid()) ==> Valid()
    {
      var v := rows[id];
      var message := BuildOtpMessage(code, v.purpose, ttl, cfg);
      var sender := SenderIdForUser(userId, cfg.senderId, ctx);
      dispatched := [SendSms(v.mobileE164, message, sender, None, userId)];
      rows := rows[id := v.(sendCount := v.sendCount + 1, lastSentAt := Some(now))];
    }

    /** `verifyOtp`: run the checks and write back the row the way the service does. */
    method VerifyOtp(id: string, code: string, now: int, hmac: string -> string) returns (res: VerifyResult)
      modifies this
      ensures (rows, res) == Verify(old(rows), id, hmac(code), now)
      ensures old(Valid()) ==> Valid()
    {
      if id in rows && Valid() {
        VerifyKeepsAttemptsInvariant(rows[id], hmac(code), now);
      }
      if id !in rows {
        return VerifyResult(false, NotFound, None, None);
      }
      var v := rows[id];
      assert rows[id := v] == rows;
      if v.status == Verified {
        return VerifyResult(false, AlreadyVerified, None, None);
      }
      if v.status == Locked {
        return VerifyResult(false, LockedOut, None, None);
      }
      if IsExpired(v, now) {
        rows := rows[id := v.(status := Expired)];
        return VerifyResult(false, ExpiredCode, None, None);
      }
      if v.attempts >= v.maxAttempts {
        rows := rows[id := v.(status := Locked)];
        return VerifyResult(false, LockedOut, None, None);
      }
      if v.codeHash == hmac(code) {
        rows := rows[id := v.(status := Verified, verifiedAt := Some(now))];
        return VerifyResult(true, VerifiedOk, None, None);
      }
      v := v.(attempts := v.attempts + 1);
      if v.attempts >= v.maxAttempts {
        v := v.(status := Locked);
      }
      rows := rows[id := v];
      res := VerifyResult(false, InvalidCode, Some(v.attempts), Some(v.status));
    }
  }

  /**
   * Request then verify with the issued code before expiry: verified; a second
   * verification reports already verified.
   */
  method RequestThenVerify(id: string, mobile: string, now: int, later: int, cfg: OtpConfig,
                           hmac: string -> string, ctx: SenderContext) returns (first: VerifyResult, second: VerifyResult)
    requires cfg.digits >= 1 && cfg.maxAttempts >= 1 && now <= later <= now + cfg.ttlSeconds
    ensures first == VerifyResult(true, VerifiedOk, None, None)
    ensures second == VerifyResult(false, AlreadyVerified, None, None)
  {
    var store := new OtpStore();
    var code, _, _ := store.RequestOtp(id, mobile, "login", None, None, now, cfg, hmac, ctx);
    first := store.VerifyOtp(id, code, later, hmac);
    second := store.VerifyOtp(id, code, later, hmac);
  }
}
