/**
  The event recorder: a trusted DOM event becomes a `ParsedEvent` record,
  posted once over the extension port. The page is abstract: the target
  element and the elements under `body` carry the attributes, text nodes and
  visibility the recorder reads.
*/
module EventRecorder {
  import opened Wrappers
  import opened Types
  import opened Counting

  /** A DOM element as the recorder sees it. */
  datatype Element = Element(
    node: nat,                         // the node's identity: distinct DOM nodes have distinct values
    tagName: string,                   // upper case for HTML elements, e.g. "INPUT"
    attributes: map<string, string>,   // attribute name to attribute value
    innerText: Option<string>,         // None when the element has no innerText property
    value: Option<string>,             // the value property when it is a string; None when the element has none
    href: Option<string>,              // the href property (the resolved link); None when the element has none
    inputType: string,                 // the type property of an input element
    textNodes: seq<string>,            // contents of the element's direct child text nodes
    visible: bool)                     // whether the element is rendered visibly

  /**
    A DOM event together with the elements under `body` at the moment it
    fires, each listed once, in document order.
  */
  datatype DomEvent = DomEvent(
    eventType: Action,
    target: Element,
    key: string,                       // the key of a keyboard event
    isTrusted: bool,
    body: seq<Element>)

  /**
    The CSS path generator (an external library): given the target, which
    carries its node identity, and the elements of the page, it returns a
    selector for the target. It is configured to prefer the test-id
    attributes; what it computes is not modelled.
  */
  type Finder = (Element, seq<Element>) -> string

  // ----- Selector -----

  /** The test-id attributes, highest priority first. */
  const TestIdAttributes: seq<string> := ["data-cy", "data-test", "data-testid"]

  /** The first of `names` that `attrs` carries. */
  function FirstPresent(names: seq<string>, attrs: map<string, string>): (r: Option<string>)
    ensures r.Some? ==> r.value in names && r.value in attrs
    ensures r.Some? ==> exists i :: 0 <= i < |names| && names[i] == r.value
                          && forall j :: 0 <= j < i ==> names[j] !in attrs
    ensures r.None? <==> forall i :: 0 <= i < |names| ==> names[i] !in attrs
  {
    if names == [] then None
    else if names[0] in attrs then Some(names[0])
    else
      var r := FirstPresent(names[1..], attrs);
      assert r.Some? ==> exists i :: 0 <= i < |names| && names[i] == r.value
                           && forall j :: 0 <= j < i ==> names[j] !in attrs by {
        if r.Some? {
          var i :| 0 <= i < |names[1..]| && names[1..][i] == r.value
                   && forall j :: 0 <= j < i ==> names[1..][j] !in attrs;
          assert names[i + 1] == r.value;
          assert forall j :: 0 <= j < i + 1 ==> names[j] !in attrs by {
            forall j | 0 <= j < i + 1 ensures names[j] !in attrs {
              if j > 0 { assert names[j] == names[1..][j - 1]; }
            }
          }
        }
      }
      r
  }

  /** The attribute-equality selector `[name=value]`, with the value unquoted. */
  function AttributeSelector(name: string, value: string): (selector: string) {
    "[" + name + "=" + value + "]"
  }

  /**
    The selector of a target: the first test-id attribute it carries, checked
    in the order data-cy, data-test, data-testid; otherwise what `finder`
    (the CSS path generator) returns for the target in `page`.
  */
  function SelectorFor(target: Element, page: seq<Element>, finder: Finder): (selector: string) {
    var attrs := target.attributes;
    if "data-cy" in attrs then AttributeSelector("data-cy", attrs["data-cy"])
    else if "data-test" in attrs then AttributeSelector("data-test", attrs["data-test"])
    else if "data-testid" in attrs then AttributeSelector("data-testid", attrs["data-testid"])
    else finder(target, page)
  }

  /** The selector is the attribute selector of the highest-priority test-id attribute present, else the finder's. */
  lemma SelectorPriority(target: Element, page: seq<Element>, finder: Finder)
    ensures var first := FirstPresent(TestIdAttributes, target.attributes);
            SelectorFor(target, page, finder) ==
              if first.Some? then AttributeSelector(first.value, target.attributes[first.value])
              else finder(target, page)
  {
    var attrs := target.attributes;
    var rest1 := TestIdAttributes[1..];
    var rest2 := rest1[1..];
    assert rest1 == ["data-test", "data-testid"];
    assert rest2 == ["data-testid"];
    assert rest2[1..] == [];
    assert FirstPresent(rest2, attrs) == if "data-testid" in attrs then Some("data-testid") else None;
    assert FirstPresent(rest1, attrs) ==
      if "data-test" in attrs then Some("data-test") else FirstPresent(rest2, attrs);
  }

  /**
    The fallback selector depends on the page and on the target's identity:
    two look-alike targets (equal but for their node) can be given
    different selectors by a finder.
  */
  lemma LookAlikeTargetsCanDiffer(t1: Element, t2: Element, page: seq<Element>)
    requires t2 == t1.(node := t2.node) && t1.node != t2.node
    requires FirstPresent(TestIdAttributes, t1.attributes).None?
    ensures exists finder: Finder :: SelectorFor(t1, page, finder) != SelectorFor(t2, page, finder)
  {
    var byNode: Finder := (t: Element, p: seq<Element>) => if t.node == t1.node then "a" else "b";
    assert TestIdAttributes[0] == "data-cy" && TestIdAttributes[1] == "data-test" && TestIdAttributes[2] == "data-testid";
    assert SelectorFor(t1, page, byNode) == "a";
    assert SelectorFor(t2, page, byNode) == "b";
  }

  // ----- Text matching -----

  /** `t` occurs in `s` as a contiguous substring. */
  predicate Includes(s: string, t: string): (found: bool)
    decreases |s|
  {
    t <= s || (s != [] && Includes(s[1..], t))
  }

  /** Some direct text node of `el` contains `t` (and, if `visibleOnly`, `el` is visible). */
  predicate Matches(el: Element, t: string, visibleOnly: bool): (matched: bool) {
    (!visibleOnly || el.visible) && exists i :: 0 <= i < |el.textNodes| && Includes(el.textNodes[i], t)
  }

  /** The match test of the recorder's query, as a predicate on elements. */
  function MatchesText(t: string, visibleOnly: bool): (test: Element -> bool) {
    el => Matches(el, t, visibleOnly)
  }

  /** The number of elements of `body` that match, as the filtered query's `length`. */
  function CountMatches(body: seq<Element>, t: string, visibleOnly: bool): (n: nat) {
    CountWhere(body, MatchesText(t, visibleOnly))
  }

  /** Exactly one element under `body` matches: one matching position. */
  ghost predicate UniqueMatch(body: seq<Element>, t: string, visibleOnly: bool): (unique: bool) {
    |PositionsWhere(body, MatchesText(t, visibleOnly))| == 1
  }

  // ----- The record -----

  /** `innerText || null`: an empty or missing text becomes null. */
  function NormalizeText(text: Option<string>): (r: Option<string>)
    ensures r != Some("")
    ensures r.Some? <==> text.Some? && text.value != ""
    ensures r.Some? ==> r == text
  {
    if text.Some? && text.value != "" then text else None
  }

  /** `innerText && <count> === 1`. */
  function ContainsFlag(innerText: Option<string>, body: seq<Element>): (flag: Flag) {
    match innerText
    case None => NullFlag
    case Some(t) => BoolFlag(CountMatches(body, t, false) == 1)
  }

  /** `innerText && !shouldUseContains && <visible count> === 1`. */
  function GetContainsFlag(innerText: Option<string>, useContains: Flag, body: seq<Element>): (flag: Flag) {
    match innerText
    case None => NullFlag
    case Some(t) => if useContains.IsTrue() then BoolFlag(false) else BoolFlag(CountMatches(body, t, true) == 1)
  }

  /** Builds the record of one event. */
  function ParseEvent(ev: DomEvent, finder: Finder): (r: ParsedEvent)
    ensures r.selector == SelectorFor(ev.target, ev.body, finder)
    ensures r.innerText != Some("")
    ensures r.innerText.Some? <==> ev.target.innerText.Some? && ev.target.innerText.value != ""
    ensures r.innerText.Some? ==> r.innerText == ev.target.innerText
    ensures r.innerText == NormalizeText(ev.target.innerText)
    ensures r.innerText.None? ==> r.shouldUseContains == NullFlag && r.shouldUseGetContains == NullFlag
    ensures r.innerText.Some? ==> r.shouldUseContains.BoolFlag? && r.shouldUseGetContains.BoolFlag?
    ensures r.shouldUseContains.IsTrue() <==>
              r.innerText.Some? && UniqueMatch(ev.body, r.innerText.value, false)
    ensures r.shouldUseGetContains.IsTrue() <==>
              r.innerText.Some? && !r.shouldUseContains.IsTrue() && UniqueMatch(ev.body, r.innerText.value, true)
    ensures !(r.shouldUseContains.IsTrue() && r.shouldUseGetContains.IsTrue())
    ensures r.action == ev.eventType && r.tag == ev.target.tagName && r.value == ev.target.value
    ensures r.href == (if "href" in ev.target.attributes then ev.target.href else None)
    ensures r.href.Some? ==> "href" in ev.target.attributes
    ensures r.id.Some? <==> "id" in ev.target.attributes
    ensures r.id.Some? ==> r.id.value == ev.target.attributes["id"]
    ensures r.inputType.Some? <==> ev.target.tagName == "INPUT"
    ensures r.inputType.Some? ==> r.inputType.value == ev.target.inputType
    ensures r.key.Some? <==> ev.eventType == Keydown
    ensures r.key.Some? ==> r.key.value == ev.key
  {
    var target := ev.target;
    var innerText := NormalizeText(target.innerText);
    var useContains := ContainsFlag(innerText, ev.body);
    var useGetContains := GetContainsFlag(innerText, useContains, ev.body);
    if innerText.Some? then
      CountIsPositions(ev.body, MatchesText(innerText.value, false));
      CountIsPositions(ev.body, MatchesText(innerText.value, true));
      Build(ev, finder, innerText, useContains, useGetContains)
    else
      Build(ev, finder, innerText, useContains, useGetContains)
  }

  /** The record with the copied fields and the optional fields filled in. */
  function Build(ev: DomEvent, finder: Finder, innerText: Option<string>,
                 useContains: Flag, useGetContains: Flag): (r: ParsedEvent) {
    var target := ev.target;
    var attrs := target.attributes;
    ParsedEvent(
      selector := SelectorFor(target, ev.body, finder),
      innerText := innerText,
      shouldUseContains := useContains,
      shouldUseGetContains := useGetContains,
      action := ev.eventType,
      tag := target.tagName,
      value := target.value,
      href := if "href" in attrs then target.href else None,
      id := if "id" in attrs then Some(attrs["id"]) else None,
      inputType := if target.tagName == "INPUT" then Some(target.inputType) else None,
      key := if ev.eventType == Keydown then Some(ev.key) else None)
  }

  // ----- Posting -----

  /** The message `handleEvent` posts for one event: none unless the event is trusted. */
  function HandleEvent(ev: DomEvent, finder: Finder): (message: Option<ParsedEvent>) {
    if ev.isTrusted then Some(ParseEvent(ev, finder)) else None
  }

  /** The trusted events of `events`, in order. */
  function Trusted(events: seq<DomEvent>): (r: seq<DomEvent>)
    ensures |r| <= |events|
    ensures forall i :: 0 <= i < |r| ==> r[i].isTrusted
    ensures forall e :: e in events && e.isTrusted <==> e in r
  {
    if events == [] then []
    else
      var last := events[|events| - 1];
      assert events == events[..|events| - 1] + [last];
      Trusted(events[..|events| - 1]) + (if last.isTrusted then [last] else [])
  }

  /** Whether an event is trusted, as a predicate. */
  function IsTrusted(ev: DomEvent): (trusted: bool) {
    ev.isTrusted
  }

  /** Exactly the trusted events are kept: one entry per trusted event. */
  lemma {:induction false} TrustedCount(events: seq<DomEvent>)
    ensures |Trusted(events)| == CountWhere(events, IsTrusted)
  {
    if events != [] {
      var n := |events| - 1;
      TrustedCount(events[..n]);
      assert Trusted(events) == Trusted(events[..n]) + (if events[n].isTrusted then [events[n]] else []);
    }
  }

  /** Handling one more event extends the trusted events by that event exactly when it is trusted. */
  lemma TrustedStep(events: seq<DomEvent>, n: nat)
    requires n < |events|
    ensures Trusted(events[..n + 1]) == Trusted(events[..n]) + (if events[n].isTrusted then [events[n]] else [])
  {
    assert events[..n + 1][..n] == events[..n];
  }

  /** The records of `events`, in order. */
  function ParseAll(events: seq<DomEvent>, finder: Finder): (r: seq<ParsedEvent>)
    ensures |r| == |events|
  {
    seq(|events|, i requires 0 <= i < |events| => ParseEvent(events[i], finder))
  }

  /**
    The messages posted while the recorder handles `events` in order: one
    message per trusted event, the record of that event.
  */
  method PostMessages(events: seq<DomEvent>, finder: Finder) returns (sent: seq<ParsedEvent>)
    ensures sent == ParseAll(Trusted(events), finder)
    ensures |sent| == |PositionsWhere(events, IsTrusted)|
  {
    TrustedCount(events);
    CountIsPositions(events, IsTrusted);
    sent := [];
    var n := 0;
    while n < |events|
      invariant n <= |events|
      invariant sent == ParseAll(Trusted(events[..n]), finder)
    {
      TrustedStep(events, n);
      var message := HandleEvent(events[n], finder);
      if message.Some? {
        ParseAllSnoc(Trusted(events[..n]), events[n], finder);
        sent := sent + [message.value];
      }
      n := n + 1;
    }
    assert events[..n] == events;
  }

  /** A session without trusted events posts nothing. */
  lemma UntrustedPostNothing(events: seq<DomEvent>, finder: Finder)
    requires forall i :: 0 <= i < |events| ==> !events[i].isTrusted
    ensures ParseAll(Trusted(events), finder) == []
  {
  }

  /** Parsing one more event appends its record. */
  lemma ParseAllSnoc(events: seq<DomEvent>, ev: DomEvent, finder: Finder)
    ensures ParseAll(events + [ev], finder) == ParseAll(events, finder) + [ParseEvent(ev, finder)]
  {
  }
}
