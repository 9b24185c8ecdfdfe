/** The record that travels from the event recorder to the code generator. */
module Types {
  import opened Wrappers

  /** The recorded DOM event categories; `Other` is any event name outside the five. */
  datatype Action = Click | Keydown | Change | Dblclick | Submit | Other(name: string)

  /** A JavaScript value that is either `null` or a boolean, as the text-match flags are. */
  datatype Flag = NullFlag | BoolFlag(b: bool) {
    /** The flag is the boolean `true` (the only value whose property-key spelling is "true"). */
    predicate IsTrue(): (isTrue: bool) {
      this == BoolFlag(true)
    }
  }

  /** One recorded user interaction. Absent optional fields are `None`. */
  datatype ParsedEvent = ParsedEvent(
    selector: string,
    innerText: Option<string>,
    shouldUseContains: Flag,
    shouldUseGetContains: Flag,
    action: Action,
    tag: string,
    value: Option<string>,
    href: Option<string>,
    id: Option<string>,
    inputType: Option<string>,
    key: Option<string>)
}
