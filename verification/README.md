# SwiftParsingXML: the parser delegate stack, in Dafny

This project models the XML-to-record mapper of `SwiftParsingXML/SwiftParsingXML/main.swift`.

- A `ParserDelegateStack` holds the parsers that consume the XML parser's start-element and end-element events. Only the parser on top of the stack is the event source's `delegate`.
- `push` makes a parser the delegate. `pop` drops the top parser and sends `didBecomeActive` to the parser below it.
- A `PersonParser` decodes one `<person>` or `<director>` element. An `ArrayParser` collects repeated `<person>` children. A `MovieParser` decodes the document element. It hands `<director>` and `<actors>` to child parsers that it owns.

The project has these modules:

- `ParserModel` (parser_model.dfy) is the specification. It holds a `State` datatype with the stack, the delegate slot, the set of parsers whose `delegateStack` back-reference is set, and each parser object's fields. It has one function per Swift function. Parser objects are named by `ParserRef`: the movie, director and actors parsers, and `ItemRef(k)` for the k-th `PersonParser` built by the actors' `parserBuilder`. So `ArrayParser.currentParser` is an index that refers to an object, as in Swift.
- `ParserSession.Session` (parser_session.dfy) is a class with the same fields. Its methods update them in place, statement by statement, as the Swift code does. Each method is proved to leave exactly the state that its `ParserModel` function gives. `Parse` is the event loop of `XMLParser.parse()`.
- `ParserInvariant` (parser_invariant.dfy) holds the configuration invariant `Valid` and the lemmas about each operation.
- `Program` (program.dfy) is the top-level code of main.swift. `SampleDocument` (sample_document.dfy) proves what the program computes on the embedded document.
- `Decimal` (decimal.dfy) is Swift's `Int(String)`.

Every force-unwrap `!` that finds nil becomes an explicit `Fault`, and so does `removeLast` on an empty array. Once a fault is set, the program has trapped and no further event is handled. The `notifications` field of the state logs every `didBecomeActive` call. The program has no such log. It exists only so that "exactly one notification" can be stated, and it is a ghost field of `Session`.

`ArrayParser` never clears `currentParser`. As written, any second reactivation would append the same item again (`StaleReactivationReappends`). Under the configuration that `MovieParser` builds, the actors parser is only reactivated when the item parser it built last is popped, and that item's result was nil until that moment (`ReactivatedOnlyByOwnChild`). Each item is therefore collected exactly once (`Valid`, `Collects`).

## Model

| member | source | states |
|---|---|---|
| `ParserSession.Session.constructor` | SwiftParsingXML/SwiftParsingXML/main.swift:180-183 | The stack starts holding only the movie parser, which is the delegate. The actors list is present and empty. The invariant holds. |
| `ParserSession.Session.Push` | SwiftParsingXML/SwiftParsingXML/main.swift:47-51 | `p` is appended to the stack, becomes the delegate and gets its back-reference. Nothing else changes. |
| `ParserSession.Session.Pop` | SwiftParsingXML/SwiftParsingXML/main.swift:53-61 | On a non-empty stack, exactly the last parser is removed. The new top becomes the delegate and is the one parser notified. If the stack becomes empty, the delegate is nil and nobody is notified. On an empty stack, `removeLast` traps. |
| `ParserSession.Session.DidBecomeActive` | SwiftParsingXML/SwiftParsingXML/main.swift:29-32 | The notification is logged. Only the actors parser reacts to it; every other parser uses the protocol's empty default. |
| `ParserSession.Session.PersonStart` | SwiftParsingXML/SwiftParsingXML/main.swift:112-116 | Equals `ParserModel.PersonStart`: on its own tag, `name` is set to the `name` attribute, or nil if it is absent. |
| `ParserSession.Session.PersonEnd` | SwiftParsingXML/SwiftParsingXML/main.swift:118-123 | Equals `ParserModel.PersonEnd`: on its own tag, a nil `name` traps. Otherwise `result = Person(name)` and the parser pops. |
| `ParserSession.Session.SetPerson` | SwiftParsingXML/SwiftParsingXML/main.swift:114 | Replaces the fields of exactly one PersonParser object: the director parser or one item parser. |
| `ParserSession.Session.ArrayStart` | SwiftParsingXML/SwiftParsingXML/main.swift:77-87 | Equals `ParserModel.ArrayStart`: the item parser is built, set as `currentParser`, pushed, and given the same start event. |
| `ParserSession.Session.ArrayEnd` | SwiftParsingXML/SwiftParsingXML/main.swift:89-93 | Equals `ParserModel.ArrayEnd`: its own end tag pops it. |
| `ParserSession.Session.ArrayDidBecomeActive` | SwiftParsingXML/SwiftParsingXML/main.swift:95-98 | Equals `ParserModel.ArrayDidBecomeActive`: `currentParser?.result`, when present, is appended to `result?`. |
| `ParserSession.Session.MovieStart` | SwiftParsingXML/SwiftParsingXML/main.swift:145-165 | Equals `ParserModel.MovieStart`: reads `title` and `releaseYear`, or pushes the director or actors parser and forwards the event to it. |
| `ParserSession.Session.MovieEnd` | SwiftParsingXML/SwiftParsingXML/main.swift:167-175 | Equals `ParserModel.MovieEnd`: builds the `Movie` or traps on the first nil field, then pops. |
| `ParserSession.Session.Dispatch` | SwiftParsingXML/SwiftParsingXML/main.swift:185 | The event goes to the current delegate, and is dropped when there is none. The invariant `Valid` is kept. |
| `ParserSession.Session.Parse` | SwiftParsingXML/SwiftParsingXML/main.swift:185 | The events are handled one at a time in document order; the result is `Run`. `Valid` is kept. |
| `XmlEvents.Lookup` | SwiftParsingXML/SwiftParsingXML/main.swift:114 | `attributeDict[key]` is present exactly when the key is, and is then that attribute's value. |
| `ParserModel.BuildItemParser` | SwiftParsingXML/SwiftParsingXML/main.swift:139-142 | The builder returns a fresh, empty PersonParser for `person` and only for `person`. Its tag name is the element's tag. |
| `ParserModel.Assemble` | SwiftParsingXML/SwiftParsingXML/main.swift:169-172 | The `Movie` is built exactly when title, year, actors and director are all present, from exactly those values. Otherwise it traps on the first nil in argument order. |
| `Decimal.ParseInt` | SwiftParsingXML/SwiftParsingXML/main.swift:150 | A value comes back only for an optional sign followed by one or more digits, and only within 64-bit `Int` range. |
| `Decimal.ParseShowRoundTrip` | SwiftParsingXML/SwiftParsingXML/main.swift:150 | Parsing the decimal text of any `Int` gives that `Int` back. |
| `Decimal.ParsePadded` | SwiftParsingXML/SwiftParsingXML/main.swift:150 | An optional sign, any number of leading zeros, then the digits of `n`, parse to `n` (or `-n` after `-`) when that fits in an `Int`, and to no value otherwise. |
| `Decimal.NonDigitRejected` | SwiftParsingXML/SwiftParsingXML/main.swift:150 | A non-digit character anywhere except a leading sign makes the year absent. |
| `Decimal.NoDigitsRejected` | SwiftParsingXML/SwiftParsingXML/main.swift:150 | Empty text, or a bare sign, gives no year. |
| `Decimal.ParseReleaseYear` | SwiftParsingXML/SwiftParsingXML/main.swift:4 | `releaseYear="2019"` converts to 2019. |
| `ParserInvariant.PushActivates` | SwiftParsingXML/SwiftParsingXML/main.swift:47-51 | The stack grows by exactly `p`, the old entries are unchanged, `p` is the delegate and on top, `p`'s back-reference is set, and nobody is notified. |
| `ParserInvariant.PopReactivates` | SwiftParsingXML/SwiftParsingXML/main.swift:53-61 | Exactly the last entry is removed. The delegate stays the top of the stack, or nil when the stack is empty. Exactly one notification goes to the new top, or none when the stack is empty. The back-references, the items, and the movie and director parsers are unchanged. Of the actors parser, only its `result` list can change. |
| `ParserInvariant.PushThenPop` | SwiftParsingXML/SwiftParsingXML/main.swift:47-61 | Pop undoes push on the stack and the delegate, and notifies the previous top exactly once. |
| `ParserInvariant.ArrayStartIgnores` | SwiftParsingXML/SwiftParsingXML/main.swift:77-87 | The actors parser's own start tag, and every tag the builder refuses, change nothing. |
| `ParserInvariant.ArrayStartPushesItem` | SwiftParsingXML/SwiftParsingXML/main.swift:82-86 | `<person>` adds one new item parser, named by the element's `name` attribute, with no result. It becomes `currentParser`, is pushed and is the delegate. The list is unchanged. |
| `ParserInvariant.ArrayEndPops` | SwiftParsingXML/SwiftParsingXML/main.swift:89-93 | Any other end tag changes nothing. On its own end tag, the stack loses exactly its top entry. The new top becomes the delegate and is the one parser notified, or nobody is notified when the stack empties. The items, the movie parser and the director parser are unchanged. On an empty stack, `removeLast` traps. |
| `ParserInvariant.ArrayReactivationAppendsAtMostOne` | SwiftParsingXML/SwiftParsingXML/main.swift:95-98 | One reactivation keeps the list present, keeps its old items as a prefix, and adds at most one item. It adds one exactly when `currentParser` has a result, and the item added is that result. `currentParser` is left as it was, never cleared, and no other state changes. |
| `ParserInvariant.StaleReactivationReappends` | SwiftParsingXML/SwiftParsingXML/main.swift:83-97 | As written, a second reactivation without a new child appends the same item again. |
| `ParserInvariant.PersonStartRecordsName` | SwiftParsingXML/SwiftParsingXML/main.swift:112-116 | On its own start tag, `name` becomes the `name` attribute, or nil when that attribute is absent. Its tag name and result are kept. Any other tag changes nothing. No other parser object, the stack, the delegate and the notification log are untouched. |
| `ParserInvariant.PersonEndBuildsAndPops` | SwiftParsingXML/SwiftParsingXML/main.swift:118-123 | For its own end tag: with no name, it traps and nothing else changes. With a name, `result == Person(name)` and the stack loses exactly its top entry. Other tags change nothing. |
| `ParserInvariant.MovieStartCases` | SwiftParsingXML/SwiftParsingXML/main.swift:145-165 | `<movie>` sets title and year and nothing else. `<director>` pushes the director parser, which reads its own name from the same event. `<actors>` pushes the actors parser, which ignores its own opening tag. Other tags change nothing. |
| `ParserInvariant.ReleaseYearConversion` | SwiftParsingXML/SwiftParsingXML/main.swift:150 | A missing attribute gives no year. A numeral gives its value when that fits in an `Int`, and no year otherwise. A numeral here is an optional `+` or `-`, any number of leading zeros, then the digits of `n`, so `"+2019"` and `"02019"` both give 2019. |
| `ParserInvariant.ReleaseYearRejects` | SwiftParsingXML/SwiftParsingXML/main.swift:150 | No year for empty text or a bare sign, or for a non-digit anywhere but in a leading sign position. A year that is present fits in an `Int`. |
| `ParserInvariant.MovieEndAssembles` | SwiftParsingXML/SwiftParsingXML/main.swift:167-175 | `</movie>` traps unless title, year, actors and director are all present, and then leaves the stack as it was. Otherwise it stores the `Movie` built from them and pops exactly once. |
| `ParserInvariant.StartValid` | SwiftParsingXML/SwiftParsingXML/main.swift:180-183 | The initial state satisfies the invariant. |
| `ParserInvariant.MovieTopStep` | SwiftParsingXML/SwiftParsingXML/main.swift:145-175 | Any event handled by the movie parser keeps `Valid` and is one well-behaved step. |
| `ParserInvariant.DirectorTopStep` | SwiftParsingXML/SwiftParsingXML/main.swift:112-123 | The same, for an event handled by the director parser. |
| `ParserInvariant.ActorsTopStep` | SwiftParsingXML/SwiftParsingXML/main.swift:77-93 | The same, for an event handled by the actors parser. |
| `ParserInvariant.ActorsOpenItemStep` | SwiftParsingXML/SwiftParsingXML/main.swift:82-86 | `<person>` under `<actors>` keeps `Valid`. It pushes one new item parser, which becomes the delegate and holds the `name` attribute and no result. The list and the notification log are unchanged. |
| `ParserInvariant.ItemCloseStep` | SwiftParsingXML/SwiftParsingXML/main.swift:118-123 | `</person>` on the open, named item parser keeps `Valid`. The item stores `Person(name)` and is popped, and the actors parser becomes the delegate. The actors parser is notified exactly once, and the list gains exactly `Person(name)` at its end. |
| `ParserInvariant.ItemTopStep` | SwiftParsingXML/SwiftParsingXML/main.swift:112-123 | Any event handled by an item parser keeps `Valid` and is one well-behaved step. `</person>` with a name pops the item parser, notifies the actors parser once and appends `Person(name)` to the list. `</person>` without a name traps. Every other event leaves the stack, the log and the actors parser unchanged. |
| `ParserInvariant.DispatchValid` | SwiftParsingXML/SwiftParsingXML/main.swift:39-176 | Every event keeps `Valid`. A step causes at most one notification. The list only grows, by at most one item. |
| `ParserInvariant.RunValid` | SwiftParsingXML/SwiftParsingXML/main.swift:185 | Any sequence of events keeps `Valid`. |
| `ParserInvariant.Reachable` | SwiftParsingXML/SwiftParsingXML/main.swift:178-185 | Every reachable state satisfies `Valid`. The delegate is the top of the stack, or nil exactly when the stack is empty. Every parser on the stack has its back-reference set. The actors list is present, possibly empty. It holds each finished item's result once, in the order the items were built. |
| `ParserInvariant.ReactivatedOnlyByOwnChild` | SwiftParsingXML/SwiftParsingXML/main.swift:139-142 | In a valid state, the actors parser is only reactivated by the pop of the item parser it built last. That item had no result before, and its new result is the one item appended. |
| `ParserInvariant.ReactivationAfterStep` | SwiftParsingXML/SwiftParsingXML/main.swift:95-98 | Between two valid states one step apart, a notification to the actors parser means its own child was popped. |
| `Program.Conclude` | SwiftParsingXML/SwiftParsingXML/main.swift:185-190 | A trap wins. Next, a parse that did not succeed is invalid XML. A movie is reported exactly when parsing succeeded and the movie parser's result is present. A successful parse with no result traps with `MissingMovieResult`, which is `result!`. |
| `Program.ParseDocument` | SwiftParsingXML/SwiftParsingXML/main.swift:178-190 | Running the statements on the objects gives the outcome `RunProgram`. |
| `Program.MalformedNeverParses` | SwiftParsingXML/SwiftParsingXML/main.swift:185-190 | If the event source reports failure, no movie is reported. |
| `Program.ParsedMeansClosed` | SwiftParsingXML/SwiftParsingXML/main.swift:167-187 | A reported movie means the stack is empty with no delegate. Its actors are the item results, each once, in document order. |
| `Program.FinishedMeansEmpty` | SwiftParsingXML/SwiftParsingXML/main.swift:167-175 | Once the movie parser has a result, the stack is empty and the result's actors are the collected list. |
| `Program.MovieResultSetOnlyByClose` | SwiftParsingXML/SwiftParsingXML/main.swift:167-175 | The movie parser gets its result only from `</movie>`, delivered while it alone is on the stack. That step empties the stack, leaves no delegate, and stores the collected list as the movie's actors. |
| `SampleDocument.SampleDocumentParses` | SwiftParsingXML/SwiftParsingXML/main.swift:3-11 | On the embedded document, the stack ends empty with no delegate. The outcome is title "Rise of Skywalker", year 2019, actors ["Daisy Ridley", "John Boyega"] in that order, and director "JJ Abrams". |

## Left out

- Foundation's `XMLParser` tokenizer (main.swift:179, 185) is not part of this model. A run of it is given as the events it delivered plus the Boolean that `parse()` returned. Malformed XML is therefore only that Boolean, and the events it delivered before giving up.
- Encoding the embedded text as UTF-8 (main.swift:178) cannot fail for a Swift string, so its force-unwrap is not modelled.
- Character data between elements produces `foundCharacters` callbacks. No parser implements that callback, so those callbacks are not modelled.
- The `print` calls and the `parserError?.localizedDescription` text (main.swift:146, 186-189) are output only. The model keeps which outcome is printed, not the text.
- The `namespaceURI` and `qualifiedName` parameters are never read, and are not modelled. The same holds for the `parser?(...)` optional-method call syntax on the `XMLParserDelegate` protocol.
- The optional `delegateStack?` chaining is modelled as always finding the stack. `Reachable` proves that every parser on the stack, and so the delegate, has its back-reference set.
- `ArrayParser` is generic over its item parser and its builder closure. Only the one instantiation the program builds is modelled: `PersonParser` items and the builder that accepts `person`.
- Parser objects are modelled as the fields of one `Session` object, named by `ParserRef`, rather than as separate heap objects. Swift's reference counting and the `delegate` property's weak reference are not modelled.
- `Int(String)` assumes a 64-bit platform for its range.
- SwiftParsingXML-starting/SwiftParsingXML/main.swift only declares the two record types and the sample text. It has no logic to model.
