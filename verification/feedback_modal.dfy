/**
 * The "what went wrong?" modal (components/FeedbackModal.tsx): a list of
 * predefined problems that submit on a click, and an "other" entry that
 * opens a comment box with its own submit button.
 */
module FeedbackModal {
  import opened Wrappers
  import Text

  datatype Modal = Modal(selected: Option<string>, comment: string, submitting: bool, showComment: bool)

  /** The parent callbacks, in the order the modal invokes them. */
  datatype Callback = OnSuccess | OnClose

  /** One call of the parent's `onSubmit(feedbackType, comment)`. */
  datatype Submission = Submission(feedbackType: string, comment: string)

  /** The modal after a handler, what it sent, and the callbacks it invoked in order. */
  datatype Outcome = Outcome(modal: Modal, sent: Option<Submission>, callbacks: seq<Callback>)

  const Other: string := "other"

  /** The predefined problem ids, in display order. */
  const PredefinedOptions: seq<string> :=
    ["audio_issue", "video_issue", "answer_rejected", "explanation_unclear", "ru_error", "en_error"]

  function Initial(): (m: Modal)
    ensures m.selected.None? && m.comment == "" && !m.submitting && !m.showComment
  {
    Modal(None, "", false, false)
  }

  /**
   * Sending a submission and reacting to the reply: on success the optional
   * success callback runs and then the modal closes; on failure the
   * spinner stops and the modal stays open.
   */
  function Send(m: Modal, s: Submission, succeeded: bool, hasOnSuccess: bool): (o: Outcome)
    ensures o.sent == Some(s)
    ensures succeeded ==> o.callbacks == (if hasOnSuccess then [OnSuccess] else []) + [OnClose] && o.modal.submitting
    ensures !succeeded ==> o.callbacks == [] && o == Outcome(m.(submitting := false), Some(s), [])
  {
    if succeeded then Outcome(m.(submitting := true), Some(s), (if hasOnSuccess then [OnSuccess] else []) + [OnClose])
    else Outcome(m.(submitting := false), Some(s), [])
  }

  /** The delayed reset after a successful submission: the modal is back to its first state. */
  function ResetAfterClose(m: Modal): (r: Modal)
    ensures r == Initial()
  {
    Modal(None, "", false, false)
  }

  /** `handleOtherClick`: "other" is selected and the comment box replaces the list. */
  function OtherClick(m: Modal): (r: Modal)
    ensures r.selected == Some(Other) && r.showComment
    ensures r.comment == m.comment && r.submitting == m.submitting
  {
    m.(selected := Some(Other), showComment := true)
  }

  /**
   * `handleOptionSelect`: "other" opens the comment box and sends nothing;
   * any other option is selected and submitted at once with an empty comment.
   */
  function OptionSelect(m: Modal, id: string, succeeded: bool, hasOnSuccess: bool): (o: Outcome)
    ensures id == Other ==> o == Outcome(OtherClick(m), None, [])
    ensures id != Other ==> o.sent == Some(Submission(id, "")) && o.modal.selected == Some(id)
    ensures id != Other && succeeded ==> OnClose in o.callbacks
    ensures id != Other && !succeeded ==> !o.modal.submitting && o.callbacks == []
  {
    if id == Other then Outcome(OtherClick(m), None, [])
    else Send(m.(selected := Some(id)), Submission(id, ""), succeeded, hasOnSuccess)
  }

  /** Typing in the comment box. */
  function SetComment(m: Modal, comment: string): (r: Modal)
    ensures r.comment == comment && r.selected == m.selected && r.submitting == m.submitting
  {
    m.(comment := comment)
  }

  /** The "back" button of the comment box returns to the list, keeping the selection. */
  function BackToOptions(m: Modal): (r: Modal)
    ensures !r.showComment && r.selected == m.selected && r.comment == m.comment
  {
    m.(showComment := false)
  }

  /** `handleSubmit`: without a (non-empty) selection nothing happens; otherwise the selection and comment are sent. */
  function HandleSubmit(m: Modal, succeeded: bool, hasOnSuccess: bool): (o: Outcome)
    ensures m.selected.None? || m.selected.value == "" ==> o == Outcome(m, None, [])
    ensures m.selected.Some? && m.selected.value != "" ==>
      o.sent == Some(Submission(m.selected.value, m.comment)) && o.modal.selected == m.selected
  {
    if m.selected.None? || m.selected.value == "" then Outcome(m, None, [])
    else Send(m, Submission(m.selected.value, m.comment), succeeded, hasOnSuccess)
  }

  /** The comment box's submit button is disabled for a blank comment or while a submission is in flight. */
  predicate SubmitDisabled(m: Modal) {
    Text.Trim(m.comment) == "" || m.submitting
  }

  /** On success the modal always closes, and closing is the last thing it does. */
  lemma SuccessClosesLast(m: Modal, s: Submission, hasOnSuccess: bool)
    ensures
      var o := Send(m, s, true, hasOnSuccess);
      |o.callbacks| > 0 && o.callbacks[|o.callbacks| - 1] == OnClose
      && (OnSuccess in o.callbacks <==> hasOnSuccess)
  {
  }

  /** Choosing "other", typing a comment and submitting sends "other" with that comment. */
  lemma OtherThenSubmitSendsComment(m: Modal, comment: string, succeeded: bool, hasOnSuccess: bool)
    ensures
      var typed := SetComment(OptionSelect(m, Other, succeeded, hasOnSuccess).modal, comment);
      HandleSubmit(typed, succeeded, hasOnSuccess).sent == Some(Submission(Other, comment))
  {
  }

  /** A predefined option never carries a comment, whatever was typed before. */
  lemma PredefinedSendsNoComment(m: Modal, i: nat, succeeded: bool, hasOnSuccess: bool)
    requires i < |PredefinedOptions|
    ensures OptionSelect(m, PredefinedOptions[i], succeeded, hasOnSuccess).sent == Some(Submission(PredefinedOptions[i], ""))
  {
  }
}
