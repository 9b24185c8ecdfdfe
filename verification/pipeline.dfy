/** What the generator makes of records built by the recorder. */
module Pipeline {
  import opened Wrappers
  import opened Types
  import opened CodeGenerator
  import opened EventRecorder

  /**
    The locator of a recorded event: the text locator when exactly one
    element under body has a text node containing the target's text, else
    the visible-text locator when exactly one visible element has one, else
    the selector.
  */
  lemma RecordedLocator(ev: DomEvent, finder: Finder)
    ensures var r := ParseEvent(ev, finder);
            var text := r.innerText;
            Selection(r) ==
              if text.Some? && UniqueMatch(ev.body, text.value, false) then ContainsLocator(text.value)
              else if text.Some? && UniqueMatch(ev.body, text.value, true) then VisibleContainsLocator(text.value)
              else GetLocator(SelectorFor(ev.target, ev.body, finder))
  {
  }

  /**
    A recorded event fails in the generator only when its type is not one of
    the five actions, or when it is a change of a target that has no value
    and is not a checkbox or radio input.
  */
  lemma RecordedEventOutcome(ev: DomEvent, finder: Finder)
    ensures var r := ParseEvent(ev, finder);
            var toggle := ev.target.tagName == "INPUT" && ev.target.inputType in {"checkbox", "radio"};
            && (CreateBlock(r).Failure? <==>
                  ev.eventType.Other? || (ev.eventType == Change && !toggle && ev.target.value.None?))
            && (CreateBlock(r) == Success(None) <==>
                  (ev.eventType == Keydown && ev.key !in TypeKey) || (ev.eventType == Change && toggle))
  {
  }
}
