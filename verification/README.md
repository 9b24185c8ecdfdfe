# Cypress Recorder core, modelled in Dafny

This project models the two pure transformations of a Cypress test recorder
(a browser-extension content script plus a code generator):

- **The event recorder** (`src/content-scripts/eventRecorder.ts`) turns a
  trusted DOM event into a `ParsedEvent` record. It picks a selector, with
  test-id attributes first (`data-cy`, `data-test`, `data-testid`) and the
  `finder` CSS-path generator as fallback. It normalises `innerText` and
  computes two text-uniqueness flags. It fills the optional `href`, `id`,
  `inputType` and `key` fields. Untrusted events are ignored.
- **The statement generator** (`src/helpers/codeGenerator.ts`) turns one
  record into one line of Cypress source, or no line, or an error. It also
  builds the `cy.visit(...)` and `cy.url().should('contains', ...)` lines.

Files:

- `wrappers.dfy`: `Option` (JavaScript `null`/`undefined`) and `Result` (a thrown error).
- `types.dfy`: the `ParsedEvent` record, the `Action` categories and `Flag`.
  `Flag` is a value that is `null` or a boolean, which is what the recorder
  stores in `shouldUseContains` / `shouldUseGetContains`.
- `escape.dfy`: the quote escape of typed values, its left-to-right inverse
  and the round trip.
- `code_generator.dfy`: locator choice, action dispatch, the special-key
  table, change handling, visit and URL lines, and their properties.
- `counting.dfy`: counting the elements of a sequence that satisfy a predicate.
- `event_recorder.dfy`: abstract elements and events, selector priority, text
  matching, the record builder, and the trusted-event filter.
- `pipeline.dfy`: what the generator does with records built by the recorder.

Modelling choices:

- The page is abstract. A `DomEvent` carries its target `Element` and the
  sequence of elements under `body` at the moment it fires. The sequence is
  meant to list each node once, in document order, as jQuery's result does.
  Nothing in the model enforces this, and a repeated element would be counted
  twice. Each element carries its attributes, its direct child text nodes and a `visible` flag.
  The jQuery query `body :contains(t)` filtered to elements with a direct
  text node containing `t` is therefore "the elements of the sequence with
  such a text node". When `t` holds neither `'` nor `\`, every such element
  also satisfies `:contains(t)`, so the jQuery pre-filter adds nothing. jQuery
  reads `\` in its argument as a CSS escape, so for such texts the real query
  can find no element where the model finds one (see "## Left out").
- `finder` (an external CSS-path library) is a function parameter of type
  `Finder`. It receives the target and the elements of the page. Each element
  carries a node identity, so look-alike elements at different places can get
  different selectors.
- `new URL(url)` is a function parameter `string -> Option<UrlParts>`. `None`
  stands for the constructor throwing.
- The locator choice is modelled as the code writes it. The object literal
  has the computed keys `true`, `shouldUseContains` and `shouldUseGetContains`,
  which are coerced to the property names `"true"`, `"false"` or `"null"`.
  It is indexed by `true`, so the last entry whose key is `"true"` wins. The
  three-way rule is proved about that lookup.
- A `null` `innerText` interpolated into a template prints as `null`
  (`Interpolate`). The generator accepts any record, not only recorded ones.
- Event types are the `Action` datatype. `Other(name)` stands for any name
  outside the five recorded categories. The recorder's test
  `event.type === "keydown"` is modelled as `eventType == Keydown`. This
  assumes the `EventType` constants are the DOM event names, which holds
  because listeners are registered under those names.
- Besides an unknown action, the generator also throws when a change record
  has no `value`, because `undefined.replace` is a TypeError
  (`GenError.ValueUndefined`). An unparsable URL makes `createUrl` throw
  (`GenError.InvalidUrl`).
- The quote escape does not escape backslashes. `TypedValue` inverts
  `EscapeQuotes`, but a JavaScript parser reads the generated literal
  differently when the value holds a backslash: `\n` becomes a newline, and a
  value ending in `\` leaves the literal unterminated.

## Model

| member | source | states |
|---|---|---|
| CodeGenerator.PropertyKey | src/helpers/codeGenerator.ts:13-15 | a flag used as a computed key is spelled "true" exactly when it is the boolean true (null and false are not) |
| CodeGenerator.Lookup | src/helpers/codeGenerator.ts:11-16 | object-literal lookup finds a key iff some entry has it, and returns the value of the last entry with that key |
| CodeGenerator.Selection | src/helpers/codeGenerator.ts:11-16 | the locator is get('<selector>') by default, contains('<innerText>') when shouldUseContains is true, get(':contains("<innerText>"):visible') when shouldUseGetContains is true, and the latter wins when both are true |
| CodeGenerator.CreateBlock | src/helpers/codeGenerator.ts:68-84 | fails iff the action is unknown (with "Unhandled event: <action>") or a non-toggle change has no value; yields no line iff a keydown of a non-special key or a checkbox/radio change |
| CodeGenerator.SimpleActionStatement | src/helpers/codeGenerator.ts:27-61 | click, dblclick and submit give exactly cy.<locator>.<command>(); and depend on no field other than the locator inputs |
| CodeGenerator.KeyTokensDistinct | src/helpers/codeGenerator.ts:32-39 | the six special keys map to pairwise distinct key tokens |
| CodeGenerator.KeydownStatement | src/helpers/codeGenerator.ts:31-44 | a keydown of a special key gives cy.<locator>.type(<token>) with an unquoted token and no semicolon; any other key gives no line |
| CodeGenerator.KeydownDistinguishesKeys | src/helpers/codeGenerator.ts:31-44 | two keydown records that differ only in their special key give different lines |
| CodeGenerator.ChangeValueRecoverable | src/helpers/codeGenerator.ts:46-52 | a typed change is exactly cy.<locator>.type('<escaped value>'); and reading the line back (TypedValue: strip prefix and suffix, unescape) gives the record's value |
| CodeGenerator.ChangeDistinguishesValues | src/helpers/codeGenerator.ts:49-52 | two typed changes that differ only in value produce different lines |
| CodeGenerator.CreateVisit | src/helpers/codeGenerator.ts:85 | the visit line is cy.visit(' + url + '); with the url embedded verbatim |
| CodeGenerator.CreateUrl | src/helpers/codeGenerator.ts:63-66 | fails iff the URL does not parse; otherwise the line is cy.url().should('contains', ' + origin + pathname + '); |
| CodeGenerator.UrlIgnoresQueryAndFragment | src/helpers/codeGenerator.ts:63-66 | URLs with equal origin and pathname give the same line, whatever their query and fragment |
| Escape.EscapeQuotes | src/helpers/codeGenerator.ts:49-52 | the escaped value's length is the value's length plus its number of quotes; a value without quotes is unchanged |
| Escape.EscapedQuotesFollowBackslash | src/helpers/codeGenerator.ts:49-52 | every quote in an escaped value is immediately preceded by a backslash |
| Escape.UnescapeEscape | src/helpers/codeGenerator.ts:49-52 | a left-to-right unescape of \' recovers the original value |
| Escape.EscapeInjective | src/helpers/codeGenerator.ts:49-52 | the quote escape is injective |
| EventRecorder.FirstPresent | src/content-scripts/eventRecorder.ts:20-31 | returns the earliest listed attribute the element carries, and none iff it carries none |
| EventRecorder.SelectorPriority | src/content-scripts/eventRecorder.ts:19-41 | the selector is [<attr>=<value>] for the highest-priority test-id attribute present (data-cy, then data-test, then data-testid), else the finder's result |
| EventRecorder.LookAlikeTargetsCanDiffer | src/content-scripts/eventRecorder.ts:32-41 | the fallback selector depends on the target's identity in the page: targets equal but for their node can be given different selectors |
| Counting.CountIsPositions | src/content-scripts/eventRecorder.ts:44-58 | the length of a filtered query (count of satisfying elements) is the number of satisfying positions, so "length === 1" means exactly one element under body has a direct text node containing the text |
| EventRecorder.NormalizeText | src/content-scripts/eventRecorder.ts:43 | the record's innerText is never empty: an empty or missing text becomes null |
| EventRecorder.ParseEvent | src/content-scripts/eventRecorder.ts:18-77 | the record's innerText is the target's innerText when non-empty and null otherwise; the flags are booleans when the text is non-null; shouldUseContains iff innerText is non-null and exactly one element matches; shouldUseGetContains iff innerText is non-null, shouldUseContains is not, and exactly one visible element matches; never both; both null when innerText is null; href is the target's href property when it has an href attribute and absent otherwise, so it is never present without the attribute (a non-link element has no href property, so its record has none); id, inputType and key present iff their conditions hold; action, tag and value copied |
| EventRecorder.Trusted | src/content-scripts/eventRecorder.ts:83-85 | keeps exactly the trusted events |
| EventRecorder.TrustedCount | src/content-scripts/eventRecorder.ts:83-85 | the kept events are exactly as many as the trusted events |
| EventRecorder.PostMessages | src/content-scripts/eventRecorder.ts:83-85 | the messages are the records of the trusted events, in order, one per trusted position; no message when no event is trusted |
| EventRecorder.UntrustedPostNothing | src/content-scripts/eventRecorder.ts:83-85 | a session in which no event is trusted posts no message |
| Pipeline.RecordedLocator | src/content-scripts/eventRecorder.ts:43-58 | a recorded event is located by its text when that text is unique on the page, by its visible text when unique among visible elements, and by its selector otherwise |
| Pipeline.RecordedEventOutcome | src/helpers/codeGenerator.ts:69-84 | a recorded event fails in the generator only for an unknown type or a valueless non-toggle change, and yields no line only for an ordinary keydown or a checkbox/radio input change |

## Left out

- Chrome extension plumbing is I/O with a foreign runtime: `chrome.runtime.connect`, `port.postMessage` and the disconnect listener (`src/content-scripts/eventRecorder.ts:11`, `84`, `111-117`). A posted message is an element of the sequence `PostMessages` returns.
- Listener registration and removal (`addDOMListeners`, `removeDOMListeners`) are DOM side effects with nothing to state beyond the calls. Only the handler they register is modelled.
- The `@medv/finder` algorithm belongs to an external library and is an uninterpreted function parameter of the target and the page. Its configuration, which prefers the three test-id attributes, is part of what that parameter stands for. Ancestors outside `body` are not part of the modelled page.
- jQuery's selector engine and the browser's `innerText` rendering are replaced by the abstract element sequence. The engine misreads a text holding `'`: the quotes no longer delimit the argument, so the searched text changes. It reads a backslash as a CSS escape, so a text holding `\` may match no element. Both are library behaviour and are not modelled.
- EventRecorder.ParseEvent: its flags are exact only for texts without `'` or `\`. For those texts the real query can miss the element, while the model counts literal substring matches.
- EventRecorder.PostMessages: if the selector engine rejected the query built from some text, `parseEvent` would throw and that trusted event would post no message. The model assumes every query is accepted, so it posts one message per trusted event.
- EventRecorder.ParseEvent: the value property is a number on some elements, such as `li` (0 by default), `meter` and `progress`, and the source copies it as is. The model records only a string or an absent value. Generated lines are unaffected, because only change events read `value` and their targets have string values.
- EventRecorder.ParseEvent: on an SVG `a` element the href property is an object rather than a string. The model takes every element's href property to be a string or absent.
- URL parsing inside `new URL(url)` follows the WHATWG URL Standard. Origin serialisation and path normalisation are foreign, so origin, pathname, search and hash are inputs.
- `event.key in typeKey` also accepts inherited property names such as `toString`. This is an artefact of JavaScript objects, so the key table is modelled as a six-entry map.
- The concrete `EventType` strings come from a constants module that is not part of this model. Actions are the `Action` datatype.
- The `ParsedEvent` type declaration lives in a types module that is not part of this model. The record's fields are those `parseEvent` writes.
- The transport serialises the record; the model passes the record value unchanged.
