/** The confirmation dialog hook (useConfirmDialog.js): `confirm` opens the
    dialog and hands out a pending request; `onConfirm` and `onCancel`
    close it and answer that request with true or false. */
module ConfirmDialog {
  import opened Wrappers

  const DefaultVariant: string := "default"
  const DefaultConfirmText: string := "확인"
  const DefaultCancelText: string := "취소"

  /** An omitted option takes its default. */
  function OrDefault(option: Option<string>, default: string): (s: string)
    ensures option.Some? ==> s == option.value
    ensures option.None? ==> s == default
  {
    if option.Some? then option.value else default
  }

  /** The ids of the answered requests, in answer order. */
  function AnsweredIds(answers: seq<(nat, bool)>): (ids: seq<nat>)
    ensures |ids| == |answers|
    ensures forall i :: 0 <= i < |answers| ==> ids[i] == answers[i].0
  {
    seq(|answers|, i requires 0 <= i < |answers| => answers[i].0)
  }

  class Dialog {
    var isOpen: bool
    var title: string
    var message: string
    var variant: string
    var confirmText: string
    var cancelText: string
    /** The request whose promise is still waiting for an answer. */
    var pending: Option<nat>
    /** Every answer given so far: the request and its result. */
    var answers: seq<(nat, bool)>
    /** The id the next request receives. */
    var nextRequest: nat

    /** Each request is answered at most once, and the pending request has
        not been answered yet. */
    ghost predicate Valid()
      reads this
    {
      && (forall i, j :: 0 <= i < j < |answers| ==> answers[i].0 != answers[j].0)
      && (forall i :: 0 <= i < |answers| ==> answers[i].0 < nextRequest)
      && (pending.Some? ==> pending.value < nextRequest && pending.value !in AnsweredIds(answers))
    }

    constructor ()
      ensures Valid()
      ensures !isOpen && title == "" && message == ""
      ensures variant == DefaultVariant && confirmText == DefaultConfirmText && cancelText == DefaultCancelText
      ensures pending == None && answers == []
    {
      isOpen := false;
      title := "";
      message := "";
      variant := DefaultVariant;
      confirmText := DefaultConfirmText;
      cancelText := DefaultCancelText;
      pending := None;
      answers := [];
      nextRequest := 0;
    }

    /** confirm: opens the dialog with the given texts and defaults for the
        omitted ones; the new request replaces any pending one, which is
        then never answered. */
    method Confirm(title: string, message: string, variant: Option<string>,
                   confirmText: Option<string>, cancelText: Option<string>)
      returns (request: nat)
      requires Valid()
      modifies this
      ensures Valid()
      ensures isOpen && this.title == title && this.message == message
      ensures this.variant == OrDefault(variant, DefaultVariant)
      ensures this.confirmText == OrDefault(confirmText, DefaultConfirmText)
      ensures this.cancelText == OrDefault(cancelText, DefaultCancelText)
      ensures pending == Some(request) && request !in AnsweredIds(answers)
      ensures old(pending).Some? ==> old(pending) != pending
      ensures answers == old(answers)
    {
      this.isOpen := true;
      this.title := title;
      this.message := message;
      this.variant := OrDefault(variant, DefaultVariant);
      this.confirmText := OrDefault(confirmText, DefaultConfirmText);
      this.cancelText := OrDefault(cancelText, DefaultCancelText);
      request := nextRequest;
      nextRequest := nextRequest + 1;
      pending := Some(request);
    }

    /** The body shared by onConfirm and onCancel: close the dialog, answer
        the pending request, if any, and forget it. */
    method Close(result: bool)
      requires Valid()
      modifies this
      ensures Valid()
      ensures !isOpen && pending == None
      ensures title == old(title) && message == old(message) && variant == old(variant)
      ensures confirmText == old(confirmText) && cancelText == old(cancelText)
      ensures old(pending).Some? ==> answers == old(answers) + [(old(pending).value, result)]
      ensures old(pending).None? ==> answers == old(answers)
    {
      isOpen := false;
      if pending.Some? {
        answers := answers + [(pending.value, result)];
      }
      pending := None;
    }

    /** onConfirm: the pending request resolves to true. */
    method OnConfirm()
      requires Valid()
      modifies this
      ensures Valid()
      ensures !isOpen && pending == None
      ensures title == old(title) && message == old(message) && variant == old(variant)
      ensures confirmText == old(confirmText) && cancelText == old(cancelText)
      ensures old(pending).Some? ==> answers == old(answers) + [(old(pending).value, true)]
      ensures old(pending).None? ==> answers == old(answers)
    {
      Close(true);
    }

    /** onCancel: the pending request resolves to false. */
    method OnCancel()
      requires Valid()
      modifies this
      ensures Valid()
      ensures !isOpen && pending == None
      ensures title == old(title) && message == old(message) && variant == old(variant)
      ensures confirmText == old(confirmText) && cancelText == old(cancelText)
      ensures old(pending).Some? ==> answers == old(answers) + [(old(pending).value, false)]
      ensures old(pending).None? ==> answers == old(answers)
    {
      Close(false);
    }
  }
}
