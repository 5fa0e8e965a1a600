/**
 * The simulated contact-form submission (initContactForm): the submit
 * button goes to a disabled "sending" state, a first timer shows "sent",
 * and a second timer resets the form and returns the button to idle.
 */
module ContactForm {

  const SendingLabel: string := "<i class=\"fas fa-spinner fa-spin me-2\"></i>Sending..."
  const SentLabel: string := "<i class=\"fas fa-check me-2\"></i>Message Sent!"
  const IdleLabel: string := "<i class=\"fas fa-paper-plane me-2\"></i>Send Message"

  /** The two timer callbacks a submission schedules, in the order they are chained. */
  datatype FormTimer = ShowSent | ResetForm

  class SubmitButton {
    /** The button's innerHTML. */
    var html: string
    var disabled: bool
    /** Whether the class list holds 'btn-primary' and 'btn-success'. */
    var primary: bool
    var success: bool
    /** How many times form.reset() has run. */
    var resets: nat
    /** Pending timers, oldest first. */
    var timers: seq<FormTimer>

    constructor (html: string, primary: bool, success: bool)
      ensures this.html == html && !disabled && this.primary == primary && this.success == success
      ensures resets == 0 && timers == []
    {
      this.html := html;
      disabled := false;
      this.primary := primary;
      this.success := success;
      resets := 0;
      timers := [];
    }

    /** The submit handler: default prevented, button shows the sending label, disabled, first timer queued. */
    method Submit() returns (defaultPrevented: bool)
      modifies this
      ensures defaultPrevented
      ensures html == SendingLabel && disabled
      ensures primary == old(primary) && success == old(success) && resets == old(resets)
      ensures timers == old(timers) + [ShowSent]
    {
      defaultPrevented := true;
      html := SendingLabel;
      disabled := true;
      timers := timers + [ShowSent];
    }

    /** The oldest pending timer fires. */
    method FireTimer()
      requires timers != []
      modifies this
      ensures old(timers[0]) == ShowSent ==>
        html == SentLabel && !primary && success && disabled == old(disabled) && resets == old(resets) &&
        timers == old(timers[1..]) + [ResetForm]
      ensures old(timers[0]) == ResetForm ==>
        html == IdleLabel && primary && !success && !disabled && resets == old(resets) + 1 &&
        timers == old(timers[1..])
    {
      var timer := timers[0];
      timers := timers[1..];
      match timer
      case ShowSent =>
        html := SentLabel;
        primary := false;
        success := true;
        timers := timers + [ResetForm];
      case ResetForm =>
        resets := resets + 1;
        html := IdleLabel;
        success := false;
        primary := true;
        disabled := false;
    }
  }

  /**
   * One submission from an idle button, followed by its two timers: the
   * button passes through sending (disabled) and sent, and ends idle, enabled,
   * styled primary, with the form reset once and nothing left pending.
   */
  method SubmitCycle(html: string) returns (sending: string, sent: string, final: string, enabled: bool, resets: nat, pending: nat)
    ensures sending == SendingLabel && sent == SentLabel && final == IdleLabel
    ensures enabled && resets == 1 && pending == 0
  {
    var button := new SubmitButton(html, true, false);
    var _ := button.Submit();
    sending := button.html;
    button.FireTimer();
    sent := button.html;
    button.FireTimer();
    final, enabled, resets, pending := button.html, !button.disabled, button.resets, |button.timers|;
  }
}
