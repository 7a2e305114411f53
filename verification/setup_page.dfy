/**
 * The account-security page's client logic: the change-password form
 * (field edits, the submit guard, the request it sends and how it takes the
 * answer), the two-factor code box, the two-factor toggle and verify answers,
 * and the device-session list. Responses of the server are parameters: the
 * server side of these endpoints is not part of this model.
 */
module SetupPage {
  import opened Base
  import opened Text
  import opened Seqs
  import opened PasswordStrength

  // ---------------------------------------------------------------------
  // change-password form

  datatype PasswordForm = PasswordForm(currentPassword: string, newPassword: string, confirmPassword: string)

  const EmptyForm: PasswordForm := PasswordForm("", "", "")

  datatype Field = CurrentField | NewField | ConfirmField

  datatype SetupState = SetupState(
    form: PasswordForm,
    strength: Strength,
    loading: bool,
    error: string,
    success: string)

  const InitialSetup: SetupState := SetupState(EmptyForm, InitialStrength, false, "", "")

  /** The body of `POST /auth/change-password`: the new password and the current one, nothing else. */
  datatype ChangePasswordBody = ChangePasswordBody(currentPassword: string, newPassword: string)

  /** How the change-password request ended: an OK answer, an error answer, or a thrown fetch. */
  datatype ChangeAnswer = AnswerOk | AnswerError(message: Option<string>) | NetworkFailure

  const MsgMismatch: string := "新密碼不相符"
  const MsgWeak: string := "密碼強度不足"
  const MsgChanged: string := "密碼已成功更改"
  const MsgChangeFailed: string := "密碼更改失敗"
  const MsgChangeRetry: string := "密碼更改失敗，請稍後重試"

  /** `handlePasswordChange`: store the field; a new-password edit also re-scores the meter. */
  function EditField(s: SetupState, f: Field, v: string): (r: SetupState)
    ensures f == NewField ==> r.form.newPassword == v && r.strength == CheckPasswordStrength(v)
    ensures f == CurrentField ==> r.form.currentPassword == v
    ensures f == ConfirmField ==> r.form.confirmPassword == v
    ensures f != NewField ==> r.strength == s.strength && r.form.newPassword == s.form.newPassword
    ensures r.loading == s.loading && r.error == s.error && r.success == s.success
  {
    match f
    case CurrentField => s.(form := s.form.(currentPassword := v))
    case ConfirmField => s.(form := s.form.(confirmPassword := v))
    case NewField => s.(form := s.form.(newPassword := v), strength := CheckPasswordStrength(v))
  }

  /**
   * The update button's `disabled` attribute: the button is live exactly
   * when nothing is in flight and a press would send a request.
   */
  predicate SubmitDisabled(s: SetupState): (d: bool)
    ensures !d <==> !s.loading && Submit(s).1.Some?
  {
    s.loading || !s.strength.isValid || s.form.newPassword != s.form.confirmPassword
  }

  /**
   * `handleChangePassword` up to the request: both messages are cleared, a
   * mismatch is reported before weakness, and only when both checks pass is
   * loading set and a request sent.
   */
  function Submit(s: SetupState): (res: (SetupState, Option<ChangePasswordBody>))
    ensures res.0.form == s.form && res.0.strength == s.strength && res.0.success == ""
    ensures s.form.newPassword != s.form.confirmPassword ==>
      res.1.None? && res.0.error == MsgMismatch && res.0.loading == s.loading
    ensures s.form.newPassword == s.form.confirmPassword && !s.strength.isValid ==>
      res.1.None? && res.0.error == MsgWeak && res.0.loading == s.loading
    ensures res.1.Some? <==> s.form.newPassword == s.form.confirmPassword && s.strength.isValid
    ensures res.1.Some? ==>
      && res.1.value == ChangePasswordBody(s.form.currentPassword, s.form.newPassword)
      && res.0.loading && res.0.error == ""
  {
    var cleared := s.(error := "", success := "");
    if s.form.newPassword != s.form.confirmPassword then (cleared.(error := MsgMismatch), None)
    else if !s.strength.isValid then (cleared.(error := MsgWeak), None)
    else (cleared.(loading := true), Some(ChangePasswordBody(s.form.currentPassword, s.form.newPassword)))
  }

  /**
   * The rest of `handleChangePassword`, as the page is written: an OK answer
   * reports success and empties the three fields, but leaves the strength
   * meter as it was.
   */
  function ReceiveAsWritten(s: SetupState, a: ChangeAnswer): (r: SetupState)
    ensures !r.loading
    ensures a.AnswerOk? ==> r.form == EmptyForm && r.success == MsgChanged && r.strength == s.strength
    ensures a.AnswerError? ==> r.form == s.form && r.error == OrElse(a.message, MsgChangeFailed)
    ensures a.NetworkFailure? ==> r.form == s.form && r.error == MsgChangeRetry
  {
    match a
    case AnswerOk => s.(success := MsgChanged, form := EmptyForm, loading := false)
    case AnswerError(m) => s.(error := OrElse(m, MsgChangeFailed), loading := false)
    case NetworkFailure => s.(error := MsgChangeRetry, loading := false)
  }

  /**
   * The same with the meter reset along with the fields, so that it always
   * describes the new-password field.
   */
  function Receive(s: SetupState, a: ChangeAnswer): (r: SetupState)
    ensures !r.loading
    ensures a.AnswerOk? ==> r.form == EmptyForm && r.success == MsgChanged && r.strength == InitialStrength
    ensures a.AnswerError? ==> r.form == s.form && r.strength == s.strength && r.error == OrElse(a.message, MsgChangeFailed)
    ensures a.NetworkFailure? ==> r.form == s.form && r.strength == s.strength && r.error == MsgChangeRetry
  {
    match a
    case AnswerOk => s.(success := MsgChanged, form := EmptyForm, strength := InitialStrength, loading := false)
    case AnswerError(m) => s.(error := OrElse(m, MsgChangeFailed), loading := false)
    case NetworkFailure => s.(error := MsgChangeRetry, loading := false)
  }

  /** What can happen on the form. */
  datatype FormEvent = Edit(field: Field, value: string) | Press | Answer(answer: ChangeAnswer)

  /** The meter agrees with the new-password field (score and validity). */
  predicate MeterInSync(s: SetupState) {
    && s.strength.score == CheckPasswordStrength(s.form.newPassword).score
    && s.strength.isValid == CheckPasswordStrength(s.form.newPassword).isValid
  }

  /** One event on the corrected form; a press yields the request it sends, if any. */
  function Step(s: SetupState, e: FormEvent): (SetupState, Option<ChangePasswordBody>) {
    match e
    case Edit(f, v) => (EditField(s, f, v), None)
    case Press => Submit(s)
    case Answer(a) => (Receive(s, a), None)
  }

  /** One event on the form as written. */
  function StepAsWritten(s: SetupState, e: FormEvent): (SetupState, Option<ChangePasswordBody>) {
    match e
    case Edit(f, v) => (EditField(s, f, v), None)
    case Press => Submit(s)
    case Answer(a) => (ReceiveAsWritten(s, a), None)
  }

  /** The requests a run of events sends, in order, on the corrected form. */
  function Sent(s: SetupState, events: seq<FormEvent>): seq<ChangePasswordBody>
    decreases |events|
  {
    if |events| == 0 then []
    else
      var (next, out) := Step(s, events[0]);
      (if out.Some? then [out.value] else []) + Sent(next, events[1..])
  }

  lemma StepKeepsMeterInSync(s: SetupState, e: FormEvent)
    requires MeterInSync(s)
    ensures MeterInSync(Step(s, e).0)
    ensures Step(s, e).1.Some? ==> CheckPasswordStrength(Step(s, e).1.value.newPassword).isValid
  {
    if e == Answer(AnswerOk) {
      EmptyPasswordMeter();
    }
  }

  /**
   * On the corrected form, from the initial state, every change-password
   * request sent carries a new password the meter rates acceptable.
   */
  lemma {:induction false} EverySentPasswordIsValid(s: SetupState, events: seq<FormEvent>)
    requires MeterInSync(s)
    ensures forall i :: 0 <= i < |Sent(s, events)| ==> CheckPasswordStrength(Sent(s, events)[i].newPassword).isValid
    decreases |events|
  {
    if |events| > 0 {
      StepKeepsMeterInSync(s, events[0]);
      EverySentPasswordIsValid(Step(s, events[0]).0, events[1..]);
    }
  }

  /** The meter over an empty field is the initial one. */
  lemma EmptyPasswordMeter()
    ensures CheckPasswordStrength("").score == InitialStrength.score
    ensures CheckPasswordStrength("").isValid == InitialStrength.isValid
  {
    assert RawScore("") == 0 by {
      assert !Contains("", IsAsciiDigit) && !Contains("", IsSymbol) && !MixedCase("");
      CountFiveCriteria("");
    }
  }

  lemma InitialMeterInSync()
    ensures MeterInSync(InitialSetup)
  {
    EmptyPasswordMeter();
  }

  /**
   * As written, a successful change leaves a stale "acceptable" meter over
   * the emptied fields: the button is enabled again and a second press sends
   * an empty new password.
   */
  lemma StaleMeterResendsEmptyPassword()
    ensures var s1 := StepAsWritten(InitialSetup, Edit(NewField, "Abcdefgh1!")).0;
      var s2 := StepAsWritten(s1, Edit(ConfirmField, "Abcdefgh1!")).0;
      var s3 := StepAsWritten(s2, Press).0;
      var s4 := StepAsWritten(s3, Answer(AnswerOk)).0;
      && !SubmitDisabled(s4)
      && StepAsWritten(s4, Press).1 == Some(ChangePasswordBody("", ""))
      && !CheckPasswordStrength("").isValid
  {
    var pw := "Abcdefgh1!";
    assert CheckPasswordStrength(pw).isValid by {
      assert IsAsciiLower(pw[1]) && IsAsciiUpper(pw[0]) && IsAsciiDigit(pw[8]);
      CountFiveCriteria(pw);
    }
    var s1 := EditField(InitialSetup, NewField, pw);
    assert s1 == StepAsWritten(InitialSetup, Edit(NewField, pw)).0;
    var s2 := EditField(s1, ConfirmField, pw);
    assert s2 == StepAsWritten(s1, Edit(ConfirmField, pw)).0;
    assert s2.strength.isValid && s2.form.newPassword == s2.form.confirmPassword;
    var s3 := Submit(s2).0;
    assert s3 == StepAsWritten(s2, Press).0;
    assert s3.strength.isValid;
    var s4 := ReceiveAsWritten(s3, AnswerOk);
    assert s4 == StepAsWritten(s3, Answer(AnswerOk)).0;
    assert s4.form == EmptyForm && s4.strength.isValid && !s4.loading;
    assert CheckPasswordStrength("").score == 0 by {
      assert !Contains("", IsAsciiDigit) && !Contains("", IsSymbol) && !MixedCase("");
      CountFiveCriteria("");
    }
  }

  // ---------------------------------------------------------------------
  // two-factor code box

  /** `value.replace(/\D/g, '').slice(0, 6)`: the ASCII digits typed, at most six of them. */
  function SanitizeCode(v: string): (r: string)
    ensures |r| <= 6
    ensures forall i :: 0 <= i < |r| ==> IsAsciiDigit(r[i])
    ensures var d := Filter(v, IsAsciiDigit); |r| == Min(|d|, 6) && r == d[..|r|]
  {
    var d := Filter(v, IsAsciiDigit);
    if |d| <= 6 then d else d[..6]
  }

  /** Sanitising an already sanitised code changes nothing. */
  lemma SanitizeIdempotent(v: string)
    ensures SanitizeCode(SanitizeCode(v)) == SanitizeCode(v)
  {
    var r := SanitizeCode(v);
    FilterKeepsAll(r, IsAsciiDigit);
  }

  /** A code of at most six digits passes through unchanged. */
  lemma SanitizeKeepsShortCodes(v: string)
    requires |v| <= 6 && AllDigits(v)
    ensures SanitizeCode(v) == v
  {
    FilterKeepsAll(v, IsAsciiDigit);
  }

  /** The verify button is enabled only for a code of exactly six characters. */
  predicate VerifyEnabled(code: string) {
    |code| == 6
  }

  /** For the change handler alone, verify is enabled exactly when its input holds six or more digits. */
  lemma VerifyEnabledAfterSanitize(v: string)
    ensures VerifyEnabled(SanitizeCode(v)) <==> |Filter(v, IsAsciiDigit)| >= 6
  {
  }

  /** The box's `maxLength`: the browser keeps at most six characters of what is typed or pasted. */
  const CodeBoxLength: nat := 6

  /**
   * Entering text into the code box. `typed` is the box's whole new text as
   * the user produced it, of any length, with the caret at its end (a paste
   * into an empty box, say); the browser cuts it to the box's length, then
   * the change handler keeps the digits. Edits in the middle of a full box,
   * where the browser keeps other characters, are not modelled.
   */
  function EnterCode(s: TwoFactorState, typed: string): (r: TwoFactorState)
    ensures r == s.(code := r.code)
    ensures AllDigits(r.code) && |r.code| <= CodeBoxLength
  {
    var cut := if |typed| <= CodeBoxLength then typed else typed[..CodeBoxLength];
    s.(code := SanitizeCode(cut))
  }

  /**
   * Through the box, verify is enabled exactly when the first six characters
   * entered are all digits: a space or a dash among them costs a digit that
   * the cut has already dropped.
   */
  lemma {:induction false} EnterCodeEnablesVerify(s: TwoFactorState, typed: string)
    ensures VerifyEnabled(EnterCode(s, typed).code) <==> |typed| >= 6 && AllDigits(typed[..6])
  {
    var cut := if |typed| <= CodeBoxLength then typed else typed[..CodeBoxLength];
    FilterFullLength(cut, IsAsciiDigit);
    if |typed| >= 6 {
      assert cut == typed[..6];
    }
  }

  /** Pasting `123 456` leaves verify disabled although six digits were pasted. */
  lemma PastedSpaceDisablesVerify(s: TwoFactorState)
    ensures !VerifyEnabled(EnterCode(s, "123 456").code)
  {
    EnterCodeEnablesVerify(s, "123 456");
    assert !IsAsciiDigit(("123 456"[..6])[3]);
  }

  // ---------------------------------------------------------------------
  // two-factor toggle and verify

  datatype TwoFactorState = TwoFactorState(
    enabled: bool,
    showModal: bool,
    code: string,
    qrCode: Option<string>,
    error: string,
    success: string)

  /** The parsed JSON object of an answer, as its string-valued fields. */
  type JsonObject = map<string, string>

  /** How a two-factor request ended. */
  datatype TwoFactorAnswer = TfOk(data: JsonObject) | TfNotOk | TfThrown

  const MsgDisabled: string := "雙因子認證已禁用"
  const MsgDisableFailed: string := "禁用失敗"
  const MsgGenerateFailed: string := "生成失敗"
  const MsgEnabled: string := "雙因子認證已啟用"
  const MsgBadCode: string := "驗證碼不正確"
  const MsgVerifyFailed: string := "驗證失敗"

  /** Field lookup on a parsed answer: `undefined` when the field is absent. */
  function Lookup(data: JsonObject, name: string): Option<string> {
    if name in data then Some(data[name]) else None
  }

  /**
   * The answer to the disable request (sent when 2FA is on): an OK answer
   * turns the flag off; a not-OK answer changes nothing; a thrown fetch
   * reports failure.
   */
  function ReceiveDisable(s: TwoFactorState, a: TwoFactorAnswer): (r: TwoFactorState)
    ensures a.TfOk? ==> !r.enabled && r.success == MsgDisabled && r.error == s.error
    ensures a.TfOk? ==> r == s.(enabled := false, success := MsgDisabled)
    ensures a.TfNotOk? ==> r == s
    ensures a.TfThrown? ==> r == s.(error := MsgDisableFailed)
  {
    match a
    case TfOk(_) => s.(enabled := false, success := MsgDisabled)
    case TfNotOk => s
    case TfThrown => s.(error := MsgDisableFailed)
  }

  /** The answer field the page reads the picture from, as written. */
  const QrFieldAsWritten: string := "qrCoda"

  /** The field named after the page's own `qrCode` state. */
  const QrField: string := "qrCode"

  /**
   * The answer to the generate request (sent when 2FA is off), reading the
   * picture from the answer's field `field`: an OK answer opens the dialog;
   * anything else reports failure. Neither changes the flag.
   */
  function ReceiveGenerate(s: TwoFactorState, a: TwoFactorAnswer, field: string): (r: TwoFactorState)
    ensures r.enabled == s.enabled
    ensures a.TfOk? ==> r.showModal && r.qrCode == Lookup(a.data, field)
    ensures a.TfOk? ==> r == s.(qrCode := Lookup(a.data, field), showModal := true)
    ensures !a.TfOk? ==> r == s.(error := MsgGenerateFailed)
  {
    match a
    case TfOk(data) => s.(qrCode := Lookup(data, field), showModal := true)
    case _ => s.(error := MsgGenerateFailed)
  }

  /**
   * As written, an answer carrying its picture as `qrCode` (and no `qrCoda`)
   * opens the dialog with no picture in it.
   */
  lemma GenerateDropsQrCode(s: TwoFactorState, data: JsonObject)
    requires "qrCode" in data && "qrCoda" !in data
    ensures var r := ReceiveGenerate(s, TfOk(data), QrFieldAsWritten);
      r.showModal && r.qrCode == None
  {
  }

  /** Corrected, the dialog opens with exactly the picture the answer carries. */
  lemma GenerateShowsQrCode(s: TwoFactorState, data: JsonObject)
    requires "qrCode" in data
    ensures var r := ReceiveGenerate(s, TfOk(data), QrField);
      r.showModal && r.qrCode == Some(data["qrCode"]) && r.enabled == s.enabled
  {
  }

  /**
   * The answer to the verify request: OK turns 2FA on, closes the dialog and
   * empties the code; anything else leaves the flag as it was.
   */
  function ReceiveVerify(s: TwoFactorState, a: TwoFactorAnswer): (r: TwoFactorState)
    ensures a.TfOk? ==> r.enabled && !r.showModal && r.code == "" && r.success == MsgEnabled
    ensures a.TfOk? ==> r == s.(enabled := true, showModal := false, code := "", success := MsgEnabled)
    ensures a.TfNotOk? ==> r == s.(error := MsgBadCode)
    ensures a.TfThrown? ==> r == s.(error := MsgVerifyFailed)
  {
    match a
    case TfOk(_) => s.(enabled := true, showModal := false, code := "", success := MsgEnabled)
    case TfNotOk => s.(error := MsgBadCode)
    case TfThrown => s.(error := MsgVerifyFailed)
  }

  /**
   * The flag moves only on OK answers: a successful verify turns 2FA on, a
   * successful disable after it turns it off again, and a failed or thrown
   * request of any kind leaves the flag where it was.
   */
  lemma TwoFactorFlagFollowsOkAnswers(s: TwoFactorState, d1: JsonObject, d2: JsonObject, a: TwoFactorAnswer)
    ensures ReceiveVerify(s, TfOk(d1)).enabled
    ensures !ReceiveDisable(ReceiveVerify(s, TfOk(d1)), TfOk(d2)).enabled
    ensures !a.TfOk? ==>
      && ReceiveVerify(s, a).enabled == s.enabled
      && ReceiveDisable(s, a).enabled == s.enabled
      && ReceiveGenerate(s, a, QrField).enabled == s.enabled
  {
  }

  // ---------------------------------------------------------------------
  // device sessions

  /** One row of the device list (`{id, deviceName, browser, location, lastActive}`). */
  datatype DeviceSession = DeviceSession(id: string, deviceName: string, browser: string, location: string, lastActive: string)

  function NotSession(id: string): DeviceSession -> bool {
    (s: DeviceSession) => s.id != id
  }

  /**
   * `handleLogoutSession(id)` after its request: on an OK answer the rows
   * with that id leave the list; otherwise the list is kept.
   */
  function LogoutSession(sessions: seq<DeviceSession>, id: string, ok: bool): (r: seq<DeviceSession>)
    ensures !ok ==> r == sessions
    ensures ok ==> forall i :: 0 <= i < |r| ==> r[i].id != id && r[i] in sessions
    ensures ok ==> forall i :: 0 <= i < |sessions| && sessions[i].id != id ==> sessions[i] in r
  {
    if ok then Filter(sessions, NotSession(id)) else sessions
  }

  /**
   * A successful logout removes exactly the rows with that id: every other row
   * keeps its multiplicity, and the survivors keep their order.
   */
  lemma LogoutSessionRemovesExactly(a: seq<DeviceSession>, b: seq<DeviceSession>, id: string, x: DeviceSession)
    ensures x.id != id ==> multiset(LogoutSession(a, id, true))[x] == multiset(a)[x]
    ensures x.id == id ==> multiset(LogoutSession(a, id, true))[x] == 0
    ensures LogoutSession(a + b, id, true) == LogoutSession(a, id, true) + LogoutSession(b, id, true)
  {
    FilterMultiset(a, NotSession(id), x);
    FilterConcat(a, b, NotSession(id));
  }
}
