/**
 * The sign-in screen (components/LoginScreen.tsx): an e-mail step that asks
 * the server for a one-time code, and a code step that checks it, with a
 * resend cooldown counted in seconds.
 */
module Login {
  import opened Wrappers
  import Text
  import Seqs

  datatype Step = EmailStep | CodeStep

  datatype Screen = Screen(step: Step, email: string, code: string, loading: bool, cooldown: int, error: string)

  /** Seconds before the code can be sent again. */
  const ResendCooldown: int := 60
  const CodeLength: nat := 6

  const InvalidEmailText: string := "Please enter a valid email address."
  const SendFailedText: string := "Failed to send code. Please try again."
  const CodeRequiredText: string := "6-digit code required."
  const VerifyFailedText: string := "Invalid or expired code."

  /** What the code request answered; a failure may carry a message. */
  datatype SendReply = Sent | SendFailed(message: Option<string>)

  /** What the verification answered: success says whether the account is new. */
  datatype VerifyReply = Verified(isNewUser: bool) | VerifyFailed(message: Option<string>)

  function Initial(): (sc: Screen)
    ensures sc.step == EmailStep && sc.email == "" && sc.code == "" && !sc.loading && sc.cooldown == 0 && sc.error == ""
  {
    Screen(EmailStep, "", "", false, 0, "")
  }

  // ---------------------------------------------------------------- e-mail

  /** A character allowed in each part of an address: neither `\s` nor '@'. */
  predicate PartChar(c: char) {
    !Text.IsWhitespace(c) && c != '@'
  }

  /** A non-empty run of allowed characters. */
  predicate Part(s: string) {
    |s| > 0 && forall k :: 0 <= k < |s| ==> PartChar(s[k])
  }

  /** `v` reads local part, '@' at `i`, domain, '.' at `j`, top-level part, each part non-empty. */
  ghost predicate EmailSplit(v: string, i: int, j: int) {
    0 <= i < j < |v| && v[i] == '@' && v[j] == '.'
    && Part(v[..i]) && Part(v[i + 1..j]) && Part(v[j + 1..])
  }

  /** The language of the address pattern: some split into the three parts exists. */
  ghost predicate EmailShaped(v: string) {
    exists i, j :: EmailSplit(v, i, j)
  }

  /** The position of the first `c` in `s`, or `|s|` when there is none. */
  function IndexOf(s: string, c: char): (r: nat)
    ensures r <= |s|
    ensures r < |s| ==> s[r] == c
    ensures forall k :: 0 <= k < r ==> s[k] != c
  {
    if |s| == 0 then 0
    else if s[0] == c then 0
    else 1 + IndexOf(s[1..], c)
  }

  /** Whether some position in `[from, |s| - 1)` holds a '.', scanning left to right. */
  function HasInnerDot(s: string, from: nat): (r: bool)
    ensures r <==> exists j :: from <= j < |s| - 1 && s[j] == '.'
    decreases |s| - from
  {
    if from + 1 >= |s| then false
    else if s[from] == '.' then true
    else HasInnerDot(s, from + 1)
  }

  /**
   * `validateEmail`, as a scan: everything before the first '@' is a part,
   * and everything after it is a part with a '.' that is neither its first
   * nor its last character.
   */
  function ValidateEmail(v: string): (r: bool)
    ensures r ==> '@' in v && v[0] != '@'
  {
    var i := IndexOf(v, '@');
    i < |v| && Part(v[..i]) && Part(v[i + 1..]) && HasInnerDot(v[i + 1..], 1)
  }

  /** The scan accepts exactly the addresses the pattern describes. */
  lemma ValidateEmailMatchesPattern(v: string)
    ensures ValidateEmail(v) <==> EmailShaped(v)
  {
    var i := IndexOf(v, '@');
    if ValidateEmail(v) {
      var d := v[i + 1..];
      var jd :| 1 <= jd < |d| - 1 && d[jd] == '.';
      var j := i + 1 + jd;
      assert v[i + 1..j] == d[..jd];
      assert v[j + 1..] == d[jd + 1..];
      assert EmailSplit(v, i, j);
    }
    if EmailShaped(v) {
      var i', j :| EmailSplit(v, i', j);
      assert v[..i'][0] == v[0];
      assert i == i';
      var d := v[i + 1..];
      var jd := j - (i + 1);
      assert d[jd] == '.';
      forall k | 0 <= k < |d|
        ensures PartChar(d[k])
      {
        if k < jd {
          assert d[k] == v[i + 1..j][k];
        } else if k > jd {
          assert d[k] == v[j + 1..][k - jd - 1];
        }
      }
      assert HasInnerDot(d, 1);
    }
  }

  /** The address the screen validates and sends: trimmed and lower-cased. */
  function CleanEmail(email: string): (r: string)
    ensures |r| <= |email|
    ensures |r| > 0 ==> !Text.IsWhitespace(r[0]) && !Text.IsWhitespace(r[|r| - 1])
  {
    Text.Lower(Text.Trim(email))
  }

  // ---------------------------------------------------------------- code

  /** `onCodeChange`: the decimal digits of the input, at most the first six. */
  function SanitizeCode(v: string): (r: string)
    ensures |r| <= CodeLength
    ensures forall k :: 0 <= k < |r| ==> Text.IsDigit(r[k])
    ensures |r| <= |Seqs.Filter(v, Text.IsDigit)| && r == Seqs.Filter(v, Text.IsDigit)[..|r|]
    ensures |Seqs.Filter(v, Text.IsDigit)| <= CodeLength ==> r == Seqs.Filter(v, Text.IsDigit)
    ensures |Seqs.Filter(v, Text.IsDigit)| >= CodeLength ==> |r| == CodeLength
  {
    var digits := Seqs.Filter(v, Text.IsDigit);
    assert forall k :: 0 <= k < |digits| ==> digits[k] in digits;
    if |digits| <= CodeLength then digits else digits[..CodeLength]
  }

  /** Sanitising an already sanitised code changes nothing. */
  lemma SanitizeCodeIdempotent(v: string)
    ensures SanitizeCode(SanitizeCode(v)) == SanitizeCode(v)
  {
    var r := SanitizeCode(v);
    assert forall c :: c in r ==> Text.IsDigit(c);
    Seqs.FilterKeepsAll(r, Text.IsDigit);
  }

  /** The code field after typing `v`. */
  function OnCodeChange(sc: Screen, v: string): (r: Screen)
    ensures r == sc.(code := SanitizeCode(v))
  {
    sc.(code := SanitizeCode(v))
  }

  // ---------------------------------------------------------------- cooldown

  /** One second of the resend timer; the timer only runs while the cooldown is positive. */
  function TickCooldown(sc: Screen): (r: Screen)
    ensures sc.cooldown > 0 ==> r.cooldown < sc.cooldown
    ensures sc.cooldown >= 0 ==> r.cooldown >= 0
    ensures r.(cooldown := sc.cooldown) == sc
  {
    if sc.cooldown <= 0 then sc else sc.(cooldown := sc.cooldown - 1)
  }

  /** `k` seconds of the resend timer. */
  function TickTimes(sc: Screen, k: nat): (r: Screen)
    ensures r.(cooldown := sc.cooldown) == sc
  {
    if k == 0 then sc else TickCooldown(TickTimes(sc, k - 1))
  }

  /** The timer counts down one per second and stops at zero. */
  lemma {:induction false} TickTimesCountsDown(sc: Screen, k: nat)
    requires sc.cooldown >= 0
    ensures TickTimes(sc, k).cooldown == if k <= sc.cooldown then sc.cooldown - k else 0
  {
    if k > 0 {
      TickTimesCountsDown(sc, k - 1);
    }
  }

  /** The resend button is enabled only when the timer has run out and nothing is in flight. */
  predicate ResendEnabled(sc: Screen) {
    sc.cooldown <= 0 && !sc.loading
  }

  /** The sign-in button is enabled only for a complete code and nothing in flight. */
  predicate SignInEnabled(sc: Screen) {
    !sc.loading && |sc.code| == CodeLength
  }

  /** After a successful send, resend opens again exactly when the full cooldown has elapsed. */
  lemma ResendOpensAfterCooldown(sc: Screen, k: nat)
    requires sc.cooldown == ResendCooldown && !sc.loading
    ensures ResendEnabled(TickTimes(sc, k)) <==> k >= ResendCooldown
  {
    TickTimesCountsDown(sc, k);
  }

  // ---------------------------------------------------------------- requests

  /**
   * `onRequestCode`: the address is cleaned and validated; an invalid one
   * shows an error and sends nothing. Otherwise the cleaned address is sent
   * and, on success only, the screen moves to the code step with the resend
   * cooldown started. Also used by the resend button.
   */
  function OnRequestCode(sc: Screen, reply: SendReply): (r: (Screen, Option<string>))
    ensures !ValidateEmail(CleanEmail(sc.email)) ==> r == (sc.(error := InvalidEmailText), None)
    ensures ValidateEmail(CleanEmail(sc.email)) ==> r.1 == Some(CleanEmail(sc.email)) && !r.0.loading
    ensures r.0.step == CodeStep <==> sc.step == CodeStep || (r.1.Some? && reply.Sent?)
    ensures r.1.Some? && reply.Sent? ==> r.0.cooldown == ResendCooldown && r.0.error == ""
    ensures r.1.Some? && reply.SendFailed? ==>
      r.0.error == Text.OrElse(reply.message, SendFailedText) && r.0.cooldown == sc.cooldown
    ensures r.0.email == sc.email && r.0.code == sc.code
  {
    var clean := CleanEmail(sc.email);
    if !ValidateEmail(clean) then (sc.(error := InvalidEmailText), None)
    else
      match reply
      case Sent => (sc.(step := CodeStep, cooldown := ResendCooldown, error := "", loading := false), Some(clean))
      case SendFailed(message) => (sc.(error := Text.OrElse(message, SendFailedText), loading := false), Some(clean))
  }

  /**
   * `onVerify`: a trimmed code that is not six characters long shows an
   * error and sends nothing. Otherwise the cleaned address and the trimmed
   * code are sent; success signs in (reporting whether the user is new).
   */
  function OnVerify(sc: Screen, reply: VerifyReply): (r: (Screen, Option<(string, string)>, Option<bool>))
    ensures |Text.Trim(sc.code)| != CodeLength ==> r == (sc.(error := CodeRequiredText), None, None)
    ensures |Text.Trim(sc.code)| == CodeLength ==>
      r.1 == Some((CleanEmail(sc.email), Text.Trim(sc.code))) && !r.0.loading
    ensures r.2.Some? <==> r.1.Some? && reply.Verified?
    ensures r.2.Some? ==> r.2.value == reply.isNewUser
    ensures r.1.Some? && reply.VerifyFailed? ==> r.0.error == Text.OrElse(reply.message, VerifyFailedText)
    ensures r.0.step == sc.step
  {
    var code := Text.Trim(sc.code);
    if |code| != CodeLength then (sc.(error := CodeRequiredText), None, None)
    else
      var request := Some((CleanEmail(sc.email), code));
      match reply
      case Verified(isNew) => (sc.(error := "", loading := false), request, Some(isNew))
      case VerifyFailed(message) => (sc.(error := Text.OrElse(message, VerifyFailedText), loading := false), request, None)
  }

  /** "Change email" goes back to the first step. */
  function ChangeEmail(sc: Screen): (r: Screen)
    ensures r.step == EmailStep && r.email == sc.email && r.cooldown == sc.cooldown
  {
    sc.(step := EmailStep)
  }

  /** A code typed through the field always passes the length check once it has six digits. */
  lemma TypedCodeReachesServer(sc: Screen, v: string, reply: VerifyReply)
    requires |Seqs.Filter(v, Text.IsDigit)| >= CodeLength
    ensures OnVerify(OnCodeChange(sc, v), reply).1.Some?
  {
    var c := SanitizeCode(v);
    assert |c| > 0 && !Text.IsWhitespace(c[0]) && !Text.IsWhitespace(c[|c| - 1]);
  }
}
