/**
 * Ctrl/Cmd + ArrowUp/ArrowDown section navigation (initKeyboardNavigation):
 * from the location hash to the hash the handler assigns.
 */
module Keyboard {
  import opened Wrappers

  /** The fixed section order the handler steps through. */
  const SectionOrder: seq<string> := ["home", "about", "programs", "notes", "contact"]

  /** The section assumed when the hash names none. */
  const DefaultSection: string := "home"

  /** The parts of a keydown event the handler reads. */
  datatype KeyEvent = KeyEvent(key: string, ctrlKey: bool, metaKey: bool)

  /** Whether the handler prevents the default action, and the value it assigns to location.hash, if any. */
  datatype KeyOutcome = KeyOutcome(defaultPrevented: bool, assignedHash: Option<string>)

  /** Array.prototype.indexOf: the first position holding `x`, or -1. */
  function IndexOf<T(==)>(xs: seq<T>, x: T): (i: int)
    ensures -1 <= i < |xs|
    ensures i == -1 <==> x !in xs
    ensures 0 <= i ==> xs[i] == x && x !in xs[..i]
  {
    if xs == [] then -1
    else if xs[0] == x then 0
    else
      var j := IndexOf(xs[1..], x);
      if j < 0 then -1
      else
        assert xs[..j + 1] == [xs[0]] + xs[1..][..j];
        j + 1
  }

  /** String.prototype.replace('#', ''): drops the first '#' and keeps everything else. */
  function RemoveFirstHash(s: string): (r: string)
    ensures |r| == if '#' in s then |s| - 1 else |s|
  {
    if s == [] then []
    else if s[0] == '#' then s[1..]
    else
      assert s == [s[0]] + s[1..];
      [s[0]] + RemoveFirstHash(s[1..])
  }

  /** RemoveFirstHash cuts out exactly the character at the first '#'. */
  lemma {:induction false} RemoveFirstHashCutsFirst(s: string, k: int)
    requires 0 <= k < |s| && s[k] == '#' && '#' !in s[..k]
    ensures RemoveFirstHash(s) == s[..k] + s[k + 1..]
  {
    if k > 0 {
      assert s[0] in s[..k];
      var tail := s[1..];
      assert tail[..k - 1] == s[1..k];
      RemoveFirstHashCutsFirst(tail, k - 1);
      assert s[..k] == [s[0]] + tail[..k - 1];
      assert s[k + 1..] == tail[k..];
    }
  }

  /** A string without '#' is left as it is. */
  lemma {:induction false} RemoveFirstHashWithoutHash(s: string)
    requires '#' !in s
    ensures RemoveFirstHash(s) == s
  {
    if s != [] {
      assert s[0] in s;
      RemoveFirstHashWithoutHash(s[1..]);
      assert [s[0]] + s[1..] == s;
    }
  }

  /** `location.hash.replace('#', '') || 'home'`. */
  function CurrentHash(hash: string): (h: string)
    ensures h != ""
    ensures h == DefaultSection || h == RemoveFirstHash(hash)
  {
    var stripped := RemoveFirstHash(hash);
    if stripped == "" then DefaultSection else stripped
  }

  /** The keydown handler, with the location hash it reads. */
  function OnKeyDown(e: KeyEvent, hash: string): (r: KeyOutcome)
    ensures r.defaultPrevented <==> r.assignedHash.Some?
    ensures r.assignedHash.Some? ==> (e.ctrlKey || e.metaKey) && r.assignedHash.value in SectionOrder
    ensures r.assignedHash.Some? ==> e.key == "ArrowDown" || e.key == "ArrowUp"
  {
    if e.ctrlKey || e.metaKey then
      var currentIndex := IndexOf(SectionOrder, CurrentHash(hash));
      if e.key == "ArrowDown" && currentIndex < |SectionOrder| - 1 then
        KeyOutcome(true, Some(SectionOrder[currentIndex + 1]))
      else if e.key == "ArrowUp" && currentIndex > 0 then
        KeyOutcome(true, Some(SectionOrder[currentIndex - 1]))
      else
        KeyOutcome(false, None)
    else
      KeyOutcome(false, None)
  }

  /** location.hash as the browser reports it after the handler assigns `s` (non-empty) to it. */
  function HashAfterAssigning(s: string): string
  {
    "#" + s
  }

  /** The section names are distinct, so each is found at its own position. */
  lemma SectionOrderIndex(k: int)
    requires 0 <= k < |SectionOrder|
    ensures IndexOf(SectionOrder, SectionOrder[k]) == k
  {
  }

  /** No section name is empty. */
  lemma SectionNameNonEmpty(k: int)
    requires 0 <= k < |SectionOrder|
    ensures SectionOrder[k] != ""
  {
  }

  /** A hash written as '#' followed by a non-empty name reads back as that name. */
  lemma CurrentHashOfAssigned(s: string)
    requires s != ""
    ensures CurrentHash(HashAfterAssigning(s)) == s
  {
  }

  /** An empty hash, or a lone '#', counts as the home section. */
  lemma EmptyHashIsHome()
    ensures CurrentHash("") == DefaultSection
    ensures CurrentHash("#") == DefaultSection
    ensures IndexOf(SectionOrder, CurrentHash("")) == 0
  {
    SectionOrderIndex(0);
  }

  /**
   * The handler acts only with Ctrl or Meta held, prevents the default exactly
   * when it assigns a hash, and then moves one place along the section order:
   * down from any position before the last (an unknown hash counts as -1), or
   * up from any position after the first.
   */
  lemma KeyDownStepsByOne(e: KeyEvent, hash: string)
    ensures var r := OnKeyDown(e, hash);
      r.defaultPrevented <==> r.assignedHash.Some?
    ensures !(e.ctrlKey || e.metaKey) ==> OnKeyDown(e, hash) == KeyOutcome(false, None)
    ensures var r := OnKeyDown(e, hash);
      var from := IndexOf(SectionOrder, CurrentHash(hash));
      r.assignedHash.Some? ==>
        (e.ctrlKey || e.metaKey) &&
        r.assignedHash.value in SectionOrder &&
        var to := IndexOf(SectionOrder, r.assignedHash.value);
        (e.key == "ArrowDown" && from < |SectionOrder| - 1 && to == from + 1) ||
        (e.key == "ArrowUp" && from > 0 && to == from - 1)
    ensures var from := IndexOf(SectionOrder, CurrentHash(hash));
      (e.ctrlKey || e.metaKey) &&
      ((e.key == "ArrowDown" && from < |SectionOrder| - 1) || (e.key == "ArrowUp" && from > 0))
      ==> OnKeyDown(e, hash).assignedHash.Some?
  {
    var from := IndexOf(SectionOrder, CurrentHash(hash));
    if (e.ctrlKey || e.metaKey) && e.key == "ArrowDown" && from < |SectionOrder| - 1 {
      SectionOrderIndex(from + 1);
    } else if (e.ctrlKey || e.metaKey) && e.key == "ArrowUp" && from > 0 {
      SectionOrderIndex(from - 1);
    }
  }

  /** ArrowDown on a hash that names no section goes to the first section, 'home'; ArrowUp there does nothing. */
  lemma UnknownHashGoesHome(hash: string, ctrlKey: bool, metaKey: bool)
    requires ctrlKey || metaKey
    requires CurrentHash(hash) !in SectionOrder
    ensures OnKeyDown(KeyEvent("ArrowDown", ctrlKey, metaKey), hash) == KeyOutcome(true, Some("home"))
    ensures OnKeyDown(KeyEvent("ArrowUp", ctrlKey, metaKey), hash) == KeyOutcome(false, None)
  {
  }

  /** With Ctrl or Meta held, the two arrow keys at position `i` of the section order. */
  lemma ArrowsAt(hash: string, ctrlKey: bool, metaKey: bool, i: int)
    requires ctrlKey || metaKey
    requires i == IndexOf(SectionOrder, CurrentHash(hash))
    ensures OnKeyDown(KeyEvent("ArrowDown", ctrlKey, metaKey), hash) ==
      if i < |SectionOrder| - 1 then KeyOutcome(true, Some(SectionOrder[i + 1])) else KeyOutcome(false, None)
    ensures OnKeyDown(KeyEvent("ArrowUp", ctrlKey, metaKey), hash) ==
      if i > 0 then KeyOutcome(true, Some(SectionOrder[i - 1])) else KeyOutcome(false, None)
  {
  }

  /** From a known section before the last, ArrowDown and then ArrowUp come back to it. */
  lemma DownThenUpReturns(hash: string, ctrlKey: bool, metaKey: bool)
    requires ctrlKey || metaKey
    requires 0 <= IndexOf(SectionOrder, CurrentHash(hash)) < |SectionOrder| - 1
    ensures var down := OnKeyDown(KeyEvent("ArrowDown", ctrlKey, metaKey), hash);
      down.assignedHash.Some? &&
      OnKeyDown(KeyEvent("ArrowUp", ctrlKey, metaKey), HashAfterAssigning(down.assignedHash.value)).assignedHash
        == Some(CurrentHash(hash))
  {
    var from := IndexOf(SectionOrder, CurrentHash(hash));
    ArrowsAt(hash, ctrlKey, metaKey, from);
    var next := SectionOrder[from + 1];
    SectionNameNonEmpty(from + 1);
    CurrentHashOfAssigned(next);
    SectionOrderIndex(from + 1);
    ArrowsAt(HashAfterAssigning(next), ctrlKey, metaKey, from + 1);
  }
}
