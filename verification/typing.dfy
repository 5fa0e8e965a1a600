/**
 * The hero-title typing effect (initTypingEffect): a chain of timer
 * callbacks, each appending one character of the saved text to the title.
 */
module Typing {
  import opened Wrappers

  class TypingEffect {
    /** The title's text when the effect was installed. */
    const text: string
    /** The title's current textContent. */
    var title: string
    /** How many characters have been typed. */
    var i: nat
    /** typeWriter timers scheduled and not yet fired. */
    var pendingTimers: nat

    /** The title is always the first `i` characters of the text, and the chain keeps one timer until it ends. */
    ghost predicate Valid()
      reads this
    {
      i <= |text| && title == text[..i] && pendingTimers <= 1 && (i < |text| ==> pendingTimers == 1)
    }

    /** Installation on a found title: save its text, clear it, schedule the first typeWriter. */
    constructor (content: string)
      ensures Valid() && text == content && title == "" && i == 0 && pendingTimers == 1
    {
      text := content;
      title := "";
      i := 0;
      pendingTimers := 1;
    }

    /** One typeWriter callback: append the next character and reschedule, or stop at the end. */
    method TypeWriter()
      requires Valid() && pendingTimers == 1
      modifies this
      ensures Valid()
      ensures old(i) < |text| ==> i == old(i) + 1 && title == old(title) + [text[old(i)]] && pendingTimers == 1
      ensures old(i) == |text| ==> i == old(i) && title == old(title) && pendingTimers == 0
    {
      pendingTimers := pendingTimers - 1;
      if i < |text| {
        title := title + [text[i]];
        i := i + 1;
        pendingTimers := pendingTimers + 1;
      }
    }

    /** Let up to `k` pending typeWriter timers fire, in order. */
    method FireTimers(k: nat)
      requires Valid()
      modifies this
      ensures Valid()
      ensures i == if old(i) + k <= |text| then old(i) + k else |text|
      ensures title == text[..i]
      ensures pendingTimers == if old(pendingTimers) == 1 && old(i) + k <= |text| then 1 else 0
    {
      var fired := 0;
      while fired < k && pendingTimers > 0
        invariant Valid()
        invariant 0 <= fired <= k
        invariant i == if old(i) + fired <= |text| then old(i) + fired else |text|
        invariant pendingTimers == if old(pendingTimers) == 1 && old(i) + fired <= |text| then 1 else 0
      {
        TypeWriter();
        fired := fired + 1;
      }
    }
  }

  /** initTypingEffect: nothing happens when the page has no `.hero-content h1`. */
  method InitTypingEffect(heroTitle: Option<string>) returns (effect: Option<TypingEffect>)
    ensures heroTitle.None? <==> effect.None?
    ensures effect.Some? ==> fresh(effect.value) && effect.value.Valid()
    ensures effect.Some? ==> effect.value.text == heroTitle.value && effect.value.title == ""
    ensures effect.Some? ==> effect.value.i == 0 && effect.value.pendingTimers == 1
  {
    if heroTitle.None? {
      return None;
    }
    var typing := new TypingEffect(heroTitle.value);
    effect := Some(typing);
  }

  /** After k timers from installation the title holds the first k characters, and the whole text once k reaches its length. */
  method TypeFromStart(content: string, k: nat) returns (title: string)
    ensures |title| == if k <= |content| then k else |content|
    ensures title == content[..|title|]
    ensures k >= |content| ==> title == content
  {
    var typing := new TypingEffect(content);
    typing.FireTimers(k);
    title := typing.title;
  }
}
