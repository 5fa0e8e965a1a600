/**
 * Loading feedback on links that open a new tab (initExternalLinks): the
 * click handler swaps in a loading label and disables pointer events, and a
 * queued timer restores the label it captured.
 */
module ExternalLinks {

  const LoadingIcon: string := "<i class=\"fas fa-spinner fa-spin me-2\"></i>"
  const LoadingLabel: string := LoadingIcon + "Opening..."

  /** The link's style.pointerEvents: '' until the first click, then 'none' or 'auto'. */
  datatype PointerEvents = Unset | NoEvents | Auto

  /** What happens to a link: an activation (click event) or the oldest pending restore timer firing. */
  datatype LinkEvent = Activate | TimerFires

  class ExternalLink {
    /** The link's innerHTML. */
    var html: string
    var pointerEvents: PointerEvents
    /** Pending restore timers, oldest first; each holds the innerHTML its click captured. */
    var timers: seq<string>

    /** No restore is pending and the link shows `original`, or one is pending that will put `original` back. */
    ghost predicate RestoresTo(original: string)
      reads this
    {
      (timers == [] && html == original && pointerEvents != NoEvents) ||
      (timers == [original] && html == LoadingLabel && pointerEvents == NoEvents)
    }

    constructor (html: string)
      ensures this.html == html && pointerEvents == Unset && timers == []
      ensures RestoresTo(html)
    {
      this.html := html;
      pointerEvents := Unset;
      timers := [];
    }

    /** The click handler as written: it captures whatever label is showing, even the loading one. */
    method Activate()
      modifies this
      ensures html == LoadingLabel && pointerEvents == NoEvents
      ensures timers == old(timers) + [old(html)]
    {
      var originalText := html;
      html := LoadingLabel;
      pointerEvents := NoEvents;
      timers := timers + [originalText];
    }

    /** The oldest restore timer fires: it puts back its captured label and re-enables pointer events. */
    method FireTimer()
      requires timers != []
      modifies this
      ensures html == old(timers[0]) && pointerEvents == Auto && timers == old(timers[1..])
    {
      html := timers[0];
      pointerEvents := Auto;
      timers := timers[1..];
    }

    /** The click handler corrected: an activation while a restore is pending changes nothing. */
    method ActivateGuarded(ghost original: string)
      requires RestoresTo(original)
      modifies this
      ensures RestoresTo(original)
      ensures old(pointerEvents) == NoEvents ==> html == old(html) && timers == old(timers)
      ensures old(pointerEvents) != NoEvents ==> html == LoadingLabel && timers == [original]
    {
      if pointerEvents == NoEvents {
        return;
      }
      Activate();
    }
  }

  /**
   * As written: two activations before the first timer fires (keyboard Enter
   * still fires click under pointer-events 'none') leave the link showing the
   * loading label for good once both timers have fired.
   */
  method DoubleActivation(original: string) returns (final: string, pending: nat)
    requires original != LoadingLabel
    ensures pending == 0
    ensures final == LoadingLabel && final != original
  {
    var link := new ExternalLink(original);
    link.Activate();
    link.Activate();
    link.FireTimer();
    link.FireTimer();
    final, pending := link.html, |link.timers|;
  }

  /**
   * Corrected: under any sequence of activations and timer firings, the
   * guarded handler keeps at most one restore pending, and whenever none is
   * pending the link shows its original label.
   */
  method ReplayGuarded(original: string, events: seq<LinkEvent>) returns (final: string, pending: nat)
    ensures pending <= 1
    ensures pending == 0 ==> final == original
    ensures pending == 1 ==> final == LoadingLabel
  {
    var link := new ExternalLink(original);
    for n := 0 to |events|
      invariant link.RestoresTo(original)
    {
      match events[n]
      case Activate => link.ActivateGuarded(original);
      case TimerFires =>
        if link.timers != [] {
          link.FireTimer();
        }
    }
    final, pending := link.html, |link.timers|;
  }
}
