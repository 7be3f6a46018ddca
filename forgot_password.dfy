/**
 * The forgot-password dialog (frontend/src/pages/ForgotPassword.jsx) as a
 * state machine: three steps (send a code, verify it, set a new password),
 * an error line, and the `isOpen` flag its parent, the login page, owns.
 * The model covers one mount of the dialog: it is rendered inside the login
 * modal, which keeps it mounted while the dialog itself is closed, so its
 * state survives its own closing; closing the login modal unmounts it, and
 * that is not an action here.
 */
module ForgotPassword {
  import opened Wrappers

  /** The component's state variables. */
  datatype Dialog = Dialog(
    step: int,
    email: string,
    code: string,
    newPassword: string,
    confirmPassword: string,
    serverCode: string,
    error: string)

  /** The parent's `isForgotPasswordOpen` flag together with the dialog. */
  datatype Screen = Screen(open: bool, dialog: Dialog)

  /** How an awaited request ended: resolved, or rejected (thrown). */
  datatype Reply = Resolved | Rejected

  const SendFailed: string := "Failed to send code. Try again."
  const VerifyFailed: string := "Invalid confirmation code."
  const Mismatch: string := "Passwords do not match."
  const ResetFailed: string := "Error resetting password. Try again."

  /** The value every `useState` starts with. */
  function Initial(): (d: Dialog)
    ensures d.step == 1 && d.error == ""
    ensures d.email == d.code == d.newPassword == d.confirmPassword == d.serverCode == ""
  {
    Dialog(1, "", "", "", "", "", "")
  }

  /** `handleSendCode`: success moves to step 2, failure sets the error and
      keeps the step; nothing else changes. */
  function SendCode(d: Dialog, reply: Reply): (r: Dialog)
    ensures reply == Resolved ==> r == d.(step := 2)
    ensures reply == Rejected ==> r == d.(error := SendFailed)
  {
    match reply
    case Resolved => d.(step := 2)
    case Rejected => d.(error := SendFailed)
  }

  /** `handleVerifyCode`: success moves to step 3, failure sets the error and
      keeps the step. */
  function VerifyCode(d: Dialog, reply: Reply): (r: Dialog)
    ensures reply == Resolved ==> r == d.(step := 3)
    ensures reply == Rejected ==> r == d.(error := VerifyFailed)
  {
    match reply
    case Resolved => d.(step := 3)
    case Rejected => d.(error := VerifyFailed)
  }

  /** What `handleResetPassword` does: the new state, the body it posts if
      any, and whether it asks the parent to close the dialog. */
  datatype ResetEffect = ResetEffect(dialog: Dialog, posted: Option<(string, string)>, closes: bool)

  /** `handleResetPassword`: a mismatch sets the error and posts nothing;
      otherwise the e-mail and new password are posted, and a success closes
      the dialog without touching its state while a failure sets the error. */
  function ResetPassword(d: Dialog, reply: Reply): (r: ResetEffect)
    ensures d.newPassword != d.confirmPassword ==>
              r.posted.None? && !r.closes && r.dialog == d.(error := Mismatch)
    ensures d.newPassword == d.confirmPassword ==> r.posted == Some((d.email, d.newPassword))
    ensures d.newPassword == d.confirmPassword && reply == Resolved ==> r.closes && r.dialog == d
    ensures d.newPassword == d.confirmPassword && reply == Rejected ==>
              !r.closes && r.dialog == d.(error := ResetFailed)
  {
    if d.newPassword != d.confirmPassword then ResetEffect(d.(error := Mismatch), None, false)
    else
      var body := Some((d.email, d.newPassword));
      match reply
      case Resolved => ResetEffect(d, body, true)
      case Rejected => ResetEffect(d.(error := ResetFailed), body, false)
  }

  /** `handleClose`: every field back to its initial value, then `onClose`. */
  function HandleClose(s: Screen): (r: Screen)
    ensures !r.open && r.dialog == Initial()
  {
    Screen(false, Initial())
  }

  /** What the user can do: open the dialog from the login page, type into
      the visible inputs, press the visible step's button, or press Cancel. */
  datatype Action =
    | OpenDialog
    | TypeEmail(email: string)
    | TypeCode(code: string)
    | TypeNewPassword(password: string)
    | TypeConfirm(password: string)
    | PressSendCode(reply: Reply)
    | PressVerifyCode(reply: Reply)
    | PressReset(reply: Reply)
    | PressCancel

  /** An action is possible only on what is rendered: nothing while closed
      (`if (!isOpen) return null`), and only the current step's controls. */
  predicate Enabled(s: Screen, a: Action) {
    match a
    case OpenDialog => true
    case TypeEmail(_) => s.open && s.dialog.step == 1
    case PressSendCode(_) => s.open && s.dialog.step == 1
    case TypeCode(_) => s.open && s.dialog.step == 2
    case PressVerifyCode(_) => s.open && s.dialog.step == 2
    case TypeNewPassword(_) => s.open && s.dialog.step == 3
    case TypeConfirm(_) => s.open && s.dialog.step == 3
    case PressReset(_) => s.open && s.dialog.step == 3
    case PressCancel => s.open
  }

  /** The effect of an action on everything but Cancel, which is where the
      written and the intended wiring differ. */
  function Common(s: Screen, a: Action): Screen
    requires a != PressCancel
  {
    match a
    case OpenDialog => s.(open := true)
    case TypeEmail(v) => s.(dialog := s.dialog.(email := v))
    case TypeCode(v) => s.(dialog := s.dialog.(code := v))
    case TypeNewPassword(v) => s.(dialog := s.dialog.(newPassword := v))
    case TypeConfirm(v) => s.(dialog := s.dialog.(confirmPassword := v))
    case PressSendCode(reply) => s.(dialog := SendCode(s.dialog, reply))
    case PressVerifyCode(reply) => s.(dialog := VerifyCode(s.dialog, reply))
    case PressReset(reply) =>
      var e := ResetPassword(s.dialog, reply);
      Screen(s.open && !e.closes, e.dialog)
  }

  /** One action as the component is written: Cancel calls the parent's
      `onClose` directly, so only the `open` flag changes. */
  function StepAsWritten(s: Screen, a: Action): Screen {
    if !Enabled(s, a) then s
    else if a == PressCancel then s.(open := false)
    else Common(s, a)
  }

  /** One action with Cancel wired to `handleClose`, as its definition
      evidently intends. */
  function Step(s: Screen, a: Action): Screen {
    if !Enabled(s, a) then s
    else if a == PressCancel then HandleClose(s)
    else Common(s, a)
  }

  function RunAsWritten(s: Screen, acts: seq<Action>): Screen
    decreases |acts|
  {
    if acts == [] then s else RunAsWritten(StepAsWritten(s, acts[0]), acts[1..])
  }

  function Run(s: Screen, acts: seq<Action>): Screen
    decreases |acts|
  {
    if acts == [] then s else Run(Step(s, acts[0]), acts[1..])
  }

  /** The step is always one of the three rendered ones. */
  predicate StepInRange(s: Screen) {
    1 <= s.dialog.step <= 3
  }

  /** Outside Cancel, an action moves the step forward by at most one and
      never clears the error: a later success leaves an earlier message. */
  lemma CommonOnlyAdvances(s: Screen, a: Action)
    requires a != PressCancel && Enabled(s, a) && StepInRange(s)
    ensures StepInRange(Common(s, a))
    ensures s.dialog.step <= Common(s, a).dialog.step <= s.dialog.step + 1
    ensures s.dialog.error != "" ==> Common(s, a).dialog.error != ""
  {
  }

  /** Along any run of the component as written, within one mount, the step
      never goes back, and an error once shown is never cleared. */
  lemma {:induction false} RunAsWrittenOnlyAdvances(s: Screen, acts: seq<Action>)
    requires StepInRange(s)
    ensures StepInRange(RunAsWritten(s, acts))
    ensures s.dialog.step <= RunAsWritten(s, acts).dialog.step
    ensures s.dialog.error != "" ==> RunAsWritten(s, acts).dialog.error != ""
    decreases |acts|
  {
    if acts != [] {
      var a := acts[0];
      if Enabled(s, a) && a != PressCancel {
        CommonOnlyAdvances(s, a);
      }
      RunAsWrittenOnlyAdvances(StepAsWritten(s, a), acts[1..]);
    }
  }

  /** With Cancel wired to `handleClose`: along a run without Cancel the step
      never goes back and an error is never cleared. */
  lemma {:induction false} RunWithoutCancelOnlyAdvances(s: Screen, acts: seq<Action>)
    requires StepInRange(s)
    requires forall i :: 0 <= i < |acts| ==> acts[i] != PressCancel
    ensures StepInRange(Run(s, acts))
    ensures s.dialog.step <= Run(s, acts).dialog.step
    ensures s.dialog.error != "" ==> Run(s, acts).dialog.error != ""
    decreases |acts|
  {
    if acts != [] {
      var a := acts[0];
      if Enabled(s, a) {
        CommonOnlyAdvances(s, a);
      }
      assert forall i :: 0 <= i < |acts[1..]| ==> acts[1..][i] == acts[i + 1];
      RunWithoutCancelOnlyAdvances(Step(s, a), acts[1..]);
    }
  }

  /** Every reachable screen shows one of the three steps. */
  lemma {:induction false} RunStaysInRange(s: Screen, acts: seq<Action>)
    requires StepInRange(s)
    ensures StepInRange(Run(s, acts))
    decreases |acts|
  {
    if acts != [] {
      var a := acts[0];
      if Enabled(s, a) && a != PressCancel {
        CommonOnlyAdvances(s, a);
      }
      RunStaysInRange(Step(s, a), acts[1..]);
    }
  }

  /** With the written wiring, Cancel followed by reopening shows the same
      step, inputs and error as before: the dialog does not start over. */
  lemma CancelThenReopenKeepsState(s: Screen)
    requires s.open
    ensures RunAsWritten(s, [PressCancel, OpenDialog]) == s
  {
    assert RunAsWritten(s, [PressCancel, OpenDialog])
        == RunAsWritten(StepAsWritten(s, PressCancel), [OpenDialog]);
  }

  /** A concrete case: a failed send-code, Cancel, reopen, and the old error
      is still shown on a fresh visit. */
  lemma StaleErrorAfterCancel()
    ensures RunAsWritten(Screen(false, Initial()),
                         [OpenDialog, PressSendCode(Rejected), PressCancel, OpenDialog]).dialog.error
            == SendFailed
  {
    var s0 := Screen(false, Initial());
    var s1 := StepAsWritten(s0, OpenDialog);
    var s2 := StepAsWritten(s1, PressSendCode(Rejected));
    assert s2.dialog.error == SendFailed;
    var acts := [OpenDialog, PressSendCode(Rejected), PressCancel, OpenDialog];
    assert acts[1..] == [PressSendCode(Rejected), PressCancel, OpenDialog];
    assert acts[2..] == [PressCancel, OpenDialog];
    CancelThenReopenKeepsState(s2);
  }

  /** With Cancel wired to `handleClose`, reopening after Cancel always shows
      the initial dialog, whatever happened before. */
  lemma CancelThenReopenStartsOver(s: Screen)
    requires s.open
    ensures Run(s, [PressCancel, OpenDialog]) == Screen(true, Initial())
  {
    assert Run(s, [PressCancel, OpenDialog]) == Run(Step(s, PressCancel), [OpenDialog]);
  }
}
