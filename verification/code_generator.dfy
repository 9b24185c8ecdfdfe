/**
  The Cypress statement generator: one recorded event becomes one line of
  Cypress source text, no line, or an error; a URL becomes a `cy.visit` or a
  `cy.url().should('contains', …)` line.
*/
module CodeGenerator {
  import opened Wrappers
  import opened Types
  import opened Escape

  /** What the generator throws. */
  datatype GenError =
    | UnhandledEvent(message: string)  // the `default` branch of the action switch
    | ValueUndefined                   // `value.replace` on a record without a value
    | InvalidUrl(url: string)          // `new URL(url)` rejects its argument

  // ----- Locator choice -----

  /** The property name a flag becomes when used as a computed object-literal key. */
  function PropertyKey(f: Flag): (k: string)
    ensures k == "true" <==> f.IsTrue()
  {
    match f
    case NullFlag => "null"
    case BoolFlag(b) => if b then "true" else "false"
  }

  /** Template-literal interpolation of an optional string: an absent one prints as `null`. */
  function Interpolate(o: Option<string>): (text: string) {
    match o
    case Some(s) => s
    case None => "null"
  }

  /**
    Property lookup on an object literal given as its entries in source order:
    a later entry with the same key overrides an earlier one.
  */
  function Lookup(entries: seq<(string, string)>, key: string): (r: Option<string>)
    ensures r.Some? <==> exists i :: 0 <= i < |entries| && entries[i].0 == key
    ensures r.Some? ==> exists i :: 0 <= i < |entries| && entries[i] == (key, r.value)
                          && forall j :: i < j < |entries| ==> entries[j].0 != key
  {
    if entries == [] then None
    else if entries[|entries| - 1].0 == key then Some(entries[|entries| - 1].1)
    else Lookup(entries[..|entries| - 1], key)
  }

  function GetLocator(selector: string): (locator: string) {
    "get('" + selector + "')"
  }

  function ContainsLocator(text: string): (locator: string) {
    "contains('" + text + "')"
  }

  function VisibleContainsLocator(text: string): (locator: string) {
    "get(':contains(\"" + text + "\"):visible')"
  }

  /** Index, in the object literal of `Selection`, of the last entry whose key is `true`. */
  function LastTrueEntry(e: ParsedEvent): (index: nat) {
    if e.shouldUseGetContains.IsTrue() then 2 else if e.shouldUseContains.IsTrue() then 1 else 0
  }

  /**
    The locator of a record, computed as the source does: an object literal
    whose keys are `true` and the two flags, indexed by `true`. The result is
    the three-way rule: the visible-text locator when `shouldUseGetContains`
    is true, else the text locator when `shouldUseContains` is true, else
    the selector.
  */
  function Selection(e: ParsedEvent): (loc: string)
    ensures e.shouldUseGetContains.IsTrue() ==> loc == VisibleContainsLocator(Interpolate(e.innerText))
    ensures !e.shouldUseGetContains.IsTrue() && e.shouldUseContains.IsTrue() ==>
              loc == ContainsLocator(Interpolate(e.innerText))
    ensures !e.shouldUseGetContains.IsTrue() && !e.shouldUseContains.IsTrue() ==>
              loc == GetLocator(e.selector)
  {
    var entries := [
      ("true", GetLocator(e.selector)),
      (PropertyKey(e.shouldUseContains), ContainsLocator(Interpolate(e.innerText))),
      (PropertyKey(e.shouldUseGetContains), VisibleContainsLocator(Interpolate(e.innerText)))
    ];
    assert entries[0].0 == "true";
    var found := Lookup(entries, "true");
    assert found.value == entries[LastTrueEntry(e)].1 by {
      var i :| 0 <= i < |entries| && entries[i] == ("true", found.value)
               && forall j :: i < j < |entries| ==> entries[j].0 != "true";
      assert entries[1].0 == "true" <==> e.shouldUseContains.IsTrue();
      assert entries[2].0 == "true" <==> e.shouldUseGetContains.IsTrue();
      assert i == LastTrueEntry(e);
    }
    found.value
  }

  // ----- Action handlers -----

  /** The special keys that are typed as Cypress key tokens. */
  const TypeKey: map<string, string> := map[
    "Backspace" := "{backspace}",
    "Escape" := "{esc}",
    "ArrowUp" := "{uparrow}",
    "ArrowRight" := "{rightarrow}",
    "ArrowDown" := "{downarrow}",
    "ArrowLeft" := "{leftarrow}"
  ]

  function HandleClick(e: ParsedEvent): (line: string) {
    "cy." + Selection(e) + ".click();"
  }

  function HandleKeydown(e: ParsedEvent): (line: Option<string>) {
    if e.key.Some? && e.key.value in TypeKey then
      Some("cy." + Selection(e) + ".type(" + TypeKey[e.key.value] + ")")
    else
      None
  }

  /** Checkbox and radio changes are not typed. */
  predicate IsToggle(inputType: Option<string>): (toggle: bool) {
    inputType == Some("checkbox") || inputType == Some("radio")
  }

  function HandleChange(e: ParsedEvent): (r: Result<Option<string>, GenError>) {
    if IsToggle(e.inputType) then Success(None)
    else if e.value.None? then Failure(ValueUndefined)
    else Success(Some("cy." + Selection(e) + ".type('" + EscapeQuotes(e.value.value) + "');"))
  }

  function HandleDoubleclick(e: ParsedEvent): (line: string) {
    "cy." + Selection(e) + ".dblclick();"
  }

  function HandleSubmit(e: ParsedEvent): (line: string) {
    "cy." + Selection(e) + ".submit();"
  }

  /** Whether a record of action `Keydown` produces a line: its key is one of the six special keys. */
  predicate IsSpecialKey(key: Option<string>): (special: bool) {
    key.Some? && key.value in TypeKey
  }

  /**
    One record to one statement. Only unknown actions, and changes whose
    record has no value, fail; only keydowns of ordinary keys and checkbox
    or radio changes produce no line.
  */
  function CreateBlock(e: ParsedEvent): (r: Result<Option<string>, GenError>)
    ensures r.Failure? <==> e.action.Other? || (e.action == Change && !IsToggle(e.inputType) && e.value.None?)
    ensures e.action.Other? ==> r == Failure(UnhandledEvent("Unhandled event: " + e.action.name))
    ensures r == Success(None) <==>
              (e.action == Keydown && !IsSpecialKey(e.key)) || (e.action == Change && IsToggle(e.inputType))
  {
    match e.action
    case Click => Success(Some(HandleClick(e)))
    case Keydown => Success(HandleKeydown(e))
    case Change => HandleChange(e)
    case Dblclick => Success(Some(HandleDoubleclick(e)))
    case Submit => Success(Some(HandleSubmit(e)))
    case Other(name) => Failure(UnhandledEvent("Unhandled event: " + name))
  }

  // ----- Navigation -----

  const VisitPrefix: string := "cy.visit('"
  const StatementEnd: string := "');"

  /** The initial navigation command; the url is embedded verbatim, without escaping. */
  function CreateVisit(url: string): (line: string)
    ensures |line| == |VisitPrefix| + |url| + |StatementEnd|
    ensures line[..|VisitPrefix|] == VisitPrefix
    ensures line[|VisitPrefix|..|line| - |StatementEnd|] == url
    ensures line[|line| - |StatementEnd|..] == StatementEnd
  {
    VisitPrefix + url + StatementEnd
  }

  /** The parts of a parsed URL, as the URL constructor exposes them. */
  datatype UrlParts = UrlParts(origin: string, pathname: string, search: string, hash: string)

  const UrlPrefix: string := "cy.url().should('contains', '"

  /**
    The URL assertion: `parse` stands for the URL constructor (`None` when it
    throws). The line embeds origin followed by pathname; query and fragment
    are dropped.
  */
  function CreateUrl(url: string, parse: string -> Option<UrlParts>): (r: Result<string, GenError>)
    ensures r.Failure? <==> parse(url).None?
    ensures r.Failure? ==> r.error == InvalidUrl(url)
    ensures r.Success? ==>
              var p := parse(url).value;
              && |r.value| == |UrlPrefix| + |p.origin| + |p.pathname| + |StatementEnd|
              && r.value[..|UrlPrefix|] == UrlPrefix
              && r.value[|UrlPrefix|..|r.value| - |StatementEnd|] == p.origin + p.pathname
              && r.value[|r.value| - |StatementEnd|..] == StatementEnd
  {
    match parse(url)
    case None => Failure(InvalidUrl(url))
    case Some(p) => Success(UrlPrefix + (p.origin + p.pathname) + StatementEnd)
  }

  // ----- Properties of the generated statements -----

  /** The Cypress command a click, double-click or submit record becomes. */
  function CommandOf(a: Action): (command: string)
    requires a == Click || a == Dblclick || a == Submit
  {
    match a
    case Click => "click"
    case Dblclick => "dblclick"
    case Submit => "submit"
  }

  /**
    A click, double-click or submit is `cy.<locator>.<command>();`, and two
    such records that agree on the locator inputs give the same line,
    whatever their other fields.
  */
  lemma SimpleActionStatement(e1: ParsedEvent, e2: ParsedEvent)
    requires e1.action == Click || e1.action == Dblclick || e1.action == Submit
    requires e2.action == e1.action
    requires e2.selector == e1.selector && e2.innerText == e1.innerText
    requires e2.shouldUseContains == e1.shouldUseContains && e2.shouldUseGetContains == e1.shouldUseGetContains
    ensures CreateBlock(e1) == Success(Some("cy." + Selection(e1) + "." + CommandOf(e1.action) + "();"))
    ensures CreateBlock(e2) == CreateBlock(e1)
  {
    var head := "cy." + Selection(e1);
    assert "." + CommandOf(e1.action) + "();" == (match e1.action
      case Click => ".click();" case Dblclick => ".dblclick();" case _ => ".submit();");
    assert head + "." + CommandOf(e1.action) + "();" == head + ("." + CommandOf(e1.action) + "();");
    assert Selection(e2) == Selection(e1);
  }

  /** The six special keys map to six distinct key tokens. */
  lemma KeyTokensDistinct(k1: string, k2: string)
    requires k1 in TypeKey && k2 in TypeKey
    ensures TypeKey[k1] == TypeKey[k2] ==> k1 == k2
  {
  }

  /**
    A keydown is `cy.<locator>.type(<token>)` (unquoted token, no semicolon)
    when its key is special, and no line otherwise.
  */
  lemma KeydownStatement(e: ParsedEvent)
    requires e.action == Keydown
    ensures IsSpecialKey(e.key) ==>
              CreateBlock(e) == Success(Some("cy." + Selection(e) + ".type(" + TypeKey[e.key.value] + ")"))
    ensures !IsSpecialKey(e.key) ==> CreateBlock(e) == Success(None)
  {
  }

  /**
    Two keydown records that differ only in their (special) key give
    different lines: the typed key can be read back from the line.
  */
  lemma KeydownDistinguishesKeys(e1: ParsedEvent, e2: ParsedEvent)
    requires e1.action == Keydown && IsSpecialKey(e1.key)
    requires e2 == e1.(key := e2.key) && IsSpecialKey(e2.key)
    requires e1.key != e2.key
    ensures CreateBlock(e1) != CreateBlock(e2)
  {
    assert Selection(e2) == Selection(e1);
    var head := "cy." + Selection(e1) + ".type(";
    var token1, token2 := TypeKey[e1.key.value], TypeKey[e2.key.value];
    KeyTokensDistinct(e1.key.value, e2.key.value);
    assert token1 != token2;
    var line1, line2 := head + token1 + ")", head + token2 + ")";
    assert CreateBlock(e1) == Success(Some(line1));
    assert CreateBlock(e2) == Success(Some(line2));
    assert line1[|head|..|line1| - 1] == token1;
    assert line2[|head|..|line2| - 1] == token2;
  }

  const TypePrefix: string := ".type('"

  /**
    Reads back the typed value of a change line whose locator is `locator`:
    the text between `cy.<locator>.type('` and `');`, with each `\'` turned
    back into `'`. This inverts `EscapeQuotes`; it is not how JavaScript reads
    the generated string literal. Backslashes of the value are not escaped,
    so a JavaScript parser reads `\n` in a value as a newline, and a value
    ending in a backslash (`C:\`) gives `type('C:\');`, whose literal is
    never closed.
  */
  function TypedValue(line: string, locator: string): (value: Option<string>) {
    var head := "cy." + locator + TypePrefix;
    if |line| >= |head| + |StatementEnd| && line[..|head|] == head && line[|line| - |StatementEnd|..] == StatementEnd
    then Some(UnescapeQuotes(line[|head|..|line| - |StatementEnd|]))
    else None
  }

  /**
    A change that is typed is `cy.<locator>.type('<escaped value>');`, and
    reading the line back gives the record's value.
  */
  lemma ChangeValueRecoverable(e: ParsedEvent)
    requires e.action == Change && !IsToggle(e.inputType) && e.value.Some?
    ensures CreateBlock(e) == Success(Some("cy." + Selection(e) + TypePrefix + EscapeQuotes(e.value.value) + StatementEnd))
    ensures TypedValue(CreateBlock(e).value.value, Selection(e)) == e.value
  {
    var head := "cy." + Selection(e) + TypePrefix;
    var body := EscapeQuotes(e.value.value);
    var line := head + body + StatementEnd;
    assert CreateBlock(e) == Success(Some(line));
    assert line[..|head|] == head;
    assert line[|line| - |StatementEnd|..] == StatementEnd;
    assert line[|head|..|line| - |StatementEnd|] == body;
    UnescapeEscape(e.value.value);
  }

  /** Two typed changes that differ only in their value give different lines. */
  lemma ChangeDistinguishesValues(e1: ParsedEvent, e2: ParsedEvent)
    requires e1.action == Change && !IsToggle(e1.inputType) && e1.value.Some?
    requires e2 == e1.(value := e2.value) && e2.value.Some?
    requires e1.value != e2.value
    ensures CreateBlock(e1) != CreateBlock(e2)
  {
    assert Selection(e1) == Selection(e2);
    ChangeValueRecoverable(e1);
    ChangeValueRecoverable(e2);
  }

  /** The URL assertion depends on origin and pathname only, never on query or fragment. */
  lemma UrlIgnoresQueryAndFragment(url1: string, url2: string, parse: string -> Option<UrlParts>)
    requires parse(url1).Some? && parse(url2).Some?
    requires parse(url1).value.origin == parse(url2).value.origin
    requires parse(url1).value.pathname == parse(url2).value.pathname
    ensures CreateUrl(url1, parse) == CreateUrl(url2, parse)
  {
  }
}
