/**
 * The parser-delegate-stack mapper of main.swift as a pure state machine.
 *
 * A `State` is a snapshot of everything the program mutates while it parses:
 * the `ParserDelegateStack` (its `parsers` array and the event source's
 * `delegate` slot), the state of each parser object, and the trap, if any,
 * that ended the program. One function here stands for each function of the
 * program; `ParserSession.Session` performs the same steps in place and is
 * proved equal to these functions.
 */
module ParserModel {
  import opened Wrappers
  import opened XmlEvents
  import opened Records
  import Decimal

  /** The tags wired in by the program. */
  const MovieTag := "movie"        // MovieParser(tagName: "movie")
  const DirectorTag := "director"  // PersonParser(tagName: "director") and the `case "director"`
  const ActorsTag := "actors"      // ArrayParser(tagName: "actors") and the `case "actors"`
  const PersonTag := "person"      // the only tag the actors' parserBuilder accepts

  /** Attribute names read by the parsers. */
  const NameAttr := "name"
  const TitleAttr := "title"
  const ReleaseYearAttr := "releaseYear"

  /**
   * Identity of a parser object: the movie parser, the director parser and the
   * actors parser it owns, and the k-th PersonParser the actors' builder created.
   */
  datatype ParserRef = MovieRef | DirectorRef | ActorsRef | ItemRef(index: nat)

  datatype PersonParser = PersonParser(tagName: string, name: Option<string>, result: Option<Person>)

  /** `currentParser` is the index of the item parser it refers to. */
  datatype ArrayParser = ArrayParser(tagName: string, result: Option<seq<Person>>, currentParser: Option<nat>)

  datatype MovieParser = MovieParser(tagName: string, title: Option<string>, releaseYear: Option<int>, result: Option<Movie>)

  /** The runtime traps of the program: a nil force-unwrap, or `removeLast` on an empty array. */
  datatype Fault =
    | MissingName(tag: string)   // `Person(name: name)` with `name` nil
    | MissingTitle               // `title` nil when the movie closes
    | MissingReleaseYear         // `releaseYear` nil when the movie closes
    | MissingActors              // `actorsParser.result!`
    | MissingDirector            // `directorParser.result!`
    | EmptyStackPop              // `parsers.removeLast()` on an empty stack
    | MissingMovieResult         // `movieParser.result!` after a successful parse

  /**
   * `attached` holds the parsers whose `delegateStack` back-reference has been set.
   * `notifications` logs, in order, every parser that received `didBecomeActive`;
   * the program keeps no such log, it is here to state how often that happens.
   */
  datatype State = State(
    parsers: seq<ParserRef>,
    delegate: Option<ParserRef>,
    attached: set<ParserRef>,
    movie: MovieParser,
    director: PersonParser,
    actors: ArrayParser,
    items: seq<PersonParser>,
    notifications: seq<ParserRef>,
    fault: Option<Fault>)

  /** A reference names an existing parser object. */
  predicate Exists(s: State, r: ParserRef) {
    r.ItemRef? ==> r.index < |s.items|
  }

  /** Every reference held by the stack, the event source and the actors parser names an existing object. */
  predicate Wf(s: State) {
    && (forall i | 0 <= i < |s.parsers| :: Exists(s, s.parsers[i]))
    && (s.delegate.Some? ==> Exists(s, s.delegate.value))
    && (s.actors.currentParser.Some? ==> s.actors.currentParser.value < |s.items|)
  }

  /** The objects just before the first push: the stack and a fresh MovieParser with the two parsers it owns. */
  function Initial(): (s: State)
    ensures Wf(s) && s.parsers == [] && s.delegate == None
  {
    State([], None, {},
          MovieParser(MovieTag, None, None, None),
          PersonParser(DirectorTag, None, None),
          ArrayParser(ActorsTag, Some([]), None),
          [], [], None)
  }

  /** `delegateStack.push(movieParser)`: the state in which the event source starts. */
  function StartState(): (s: State)
    ensures Wf(s) && s.parsers == [MovieRef] && s.delegate == Some(MovieRef)
  {
    Push(Initial(), MovieRef)
  }

  // ---------------------------------------------------------------- the stack

  /** `ParserDelegateStack.push`: set the back-reference, make `p` the delegate, append it. */
  function Push(s: State, p: ParserRef): (t: State)
    requires Wf(s) && Exists(s, p)
    ensures Wf(t)
  {
    s.(attached := s.attached + {p}, delegate := Some(p), parsers := s.parsers + [p])
  }

  /**
   * `ParserDelegateStack.pop`: drop the last parser; the new last one, if any,
   * becomes the delegate and is told `didBecomeActive`, else the delegate is nil.
   */
  function Pop(s: State): (t: State)
    requires Wf(s)
    ensures Wf(t)
  {
    if s.parsers == [] then s.(fault := Some(EmptyStackPop))
    else
      var rest := s.parsers[..|s.parsers| - 1];
      if rest == [] then s.(parsers := rest, delegate := None)
      else
        var next := rest[|rest| - 1];
        DidBecomeActive(s.(parsers := rest, delegate := Some(next)), next)
  }

  /** Send `didBecomeActive` to `r`: only the ArrayParser overrides the protocol's empty default. */
  function DidBecomeActive(s: State, r: ParserRef): (t: State)
    requires Wf(s) && Exists(s, r)
    ensures Wf(t)
  {
    var s' := s.(notifications := s.notifications + [r]);
    if r == ActorsRef then ArrayDidBecomeActive(s') else s'
  }

  // ---------------------------------------------------------------- PersonParser

  predicate IsPersonRef(s: State, r: ParserRef) {
    r == DirectorRef || (r.ItemRef? && r.index < |s.items|)
  }

  function PersonOf(s: State, r: ParserRef): PersonParser
    requires IsPersonRef(s, r)
  {
    if r == DirectorRef then s.director else s.items[r.index]
  }

  function SetPerson(s: State, r: ParserRef, p: PersonParser): (t: State)
    requires Wf(s) && IsPersonRef(s, r)
    ensures Wf(t) && |t.items| == |s.items| && PersonOf(t, r) == p
  {
    if r == DirectorRef then s.(director := p) else s.(items := s.items[r.index := p])
  }

  /** PersonParser's didStartElement: its own tag sets `name` from the attribute (nil if absent). */
  function PersonStart(s: State, r: ParserRef, tag: string, attrs: map<string, string>): (t: State)
    requires Wf(s) && IsPersonRef(s, r)
    ensures Wf(t)
  {
    var p := PersonOf(s, r);
    if tag == p.tagName then SetPerson(s, r, p.(name := Lookup(attrs, NameAttr))) else s
  }

  /** PersonParser's didEndElement: its own tag builds `Person(name: name)` and pops. */
  function PersonEnd(s: State, r: ParserRef, tag: string): (t: State)
    requires Wf(s) && IsPersonRef(s, r)
    ensures Wf(t)
  {
    var p := PersonOf(s, r);
    if tag != p.tagName then s
    else
      match p.name
      case None => s.(fault := Some(MissingName(p.tagName)))
      case Some(n) => Pop(SetPerson(s, r, p.(result := Some(Person(n)))))
  }

  // ---------------------------------------------------------------- ArrayParser

  /** The actors' `parserBuilder`: a fresh PersonParser for `person`, nil for every other tag. */
  function BuildItemParser(tag: string): (r: Option<PersonParser>)
    ensures r.Some? <==> tag == PersonTag
    ensures r.Some? ==> r.value == PersonParser(tag, None, None)
  {
    if tag == PersonTag then Some(PersonParser(tag, None, None)) else None
  }

  /**
   * ArrayParser's didStartElement: its own tag and tags the builder refuses are
   * ignored; otherwise the new item parser becomes `currentParser`, is pushed,
   * and receives the same start event.
   */
  function ArrayStart(s: State, tag: string, attrs: map<string, string>): (t: State)
    requires Wf(s)
    ensures Wf(t)
  {
    if tag == s.actors.tagName then s
    else
      match BuildItemParser(tag)
      case None => s
      case Some(p) =>
        var k := |s.items|;
        var s1 := s.(items := s.items + [p], actors := s.actors.(currentParser := Some(k)));
        PersonStart(Push(s1, ItemRef(k)), ItemRef(k), tag, attrs)
  }

  /** ArrayParser's didEndElement: its own tag pops it, every other tag is ignored. */
  function ArrayEnd(s: State, tag: string): (t: State)
    requires Wf(s)
    ensures Wf(t)
  {
    if tag == s.actors.tagName then Pop(s) else s
  }

  /** ArrayParser's didBecomeActive: append `currentParser?.result`, when there is one, to `result`. */
  function ArrayDidBecomeActive(s: State): (t: State)
    requires Wf(s)
    ensures Wf(t)
  {
    match s.actors.currentParser
    case None => s
    case Some(k) =>
      match s.items[k].result
      case None => s
      case Some(item) =>
        match s.actors.result
        case None => s
        case Some(list) => s.(actors := s.actors.(result := Some(list + [item])))
  }

  // ---------------------------------------------------------------- MovieParser

  /** `attributeDict["releaseYear"].flatMap(Int.init)` */
  function ReleaseYearOf(attrs: map<string, string>): Option<int> {
    match Lookup(attrs, ReleaseYearAttr)
    case None => None
    case Some(text) => Decimal.ParseInt(text)
  }

  /**
   * MovieParser's didStartElement: its own tag reads `title` and `releaseYear`;
   * `director` and `actors` push the owned child parser and forward the event to it.
   */
  function MovieStart(s: State, tag: string, attrs: map<string, string>): (t: State)
    requires Wf(s)
    ensures Wf(t)
  {
    if tag == s.movie.tagName then
      s.(movie := s.movie.(title := Lookup(attrs, TitleAttr), releaseYear := ReleaseYearOf(attrs)))
    else if tag == DirectorTag then
      PersonStart(Push(s, DirectorRef), DirectorRef, tag, attrs)
    else if tag == ActorsTag then
      ArrayStart(Push(s, ActorsRef), tag, attrs)
    else
      s
  }

  /**
   * The `Movie(...)` initializer call with its four force-unwraps, evaluated in
   * argument order: the first nil one is the trap.
   */
  function Assemble(title: Option<string>, year: Option<int>, actors: Option<seq<Person>>, director: Option<Person>)
    : (r: Result<Movie, Fault>)
    ensures r.Success? <==> title.Some? && year.Some? && actors.Some? && director.Some?
    ensures r.Success? ==> r.value == Movie(title.value, year.value, actors.value, director.value)
    ensures title.None? ==> r == Failure(MissingTitle)
    ensures title.Some? && year.None? ==> r == Failure(MissingReleaseYear)
    ensures title.Some? && year.Some? && actors.None? ==> r == Failure(MissingActors)
    ensures title.Some? && year.Some? && actors.Some? && director.None? ==> r == Failure(MissingDirector)
  {
    if title.None? then Failure(MissingTitle)
    else if year.None? then Failure(MissingReleaseYear)
    else if actors.None? then Failure(MissingActors)
    else if director.None? then Failure(MissingDirector)
    else Success(Movie(title.value, year.value, actors.value, director.value))
  }

  /** MovieParser's didEndElement: its own tag builds the Movie and pops. */
  function MovieEnd(s: State, tag: string): (t: State)
    requires Wf(s)
    ensures Wf(t)
  {
    if tag != s.movie.tagName then s
    else
      match Assemble(s.movie.title, s.movie.releaseYear, s.actors.result, s.director.result)
      case Failure(f) => s.(fault := Some(f))
      case Success(m) => Pop(s.(movie := s.movie.(result := Some(m))))
  }

  // ---------------------------------------------------------------- the event loop

  function HandleStart(s: State, r: ParserRef, tag: string, attrs: map<string, string>): (t: State)
    requires Wf(s) && Exists(s, r)
    ensures Wf(t)
  {
    match r
    case MovieRef => MovieStart(s, tag, attrs)
    case ActorsRef => ArrayStart(s, tag, attrs)
    case DirectorRef => PersonStart(s, r, tag, attrs)
    case ItemRef(_) => PersonStart(s, r, tag, attrs)
  }

  function HandleEnd(s: State, r: ParserRef, tag: string): (t: State)
    requires Wf(s) && Exists(s, r)
    ensures Wf(t)
  {
    match r
    case MovieRef => MovieEnd(s, tag)
    case ActorsRef => ArrayEnd(s, tag)
    case DirectorRef => PersonEnd(s, r, tag)
    case ItemRef(_) => PersonEnd(s, r, tag)
  }

  /**
   * The event source hands one event to its current delegate; with no delegate
   * the event goes nowhere, and after a trap the program has stopped.
   */
  function Dispatch(s: State, e: Event): (t: State)
    requires Wf(s)
    ensures Wf(t)
  {
    if s.fault.Some? then s
    else
      match s.delegate
      case None => s
      case Some(r) =>
        match e
        case Start(tag, attrs) => HandleStart(s, r, tag, attrs)
        case End(tag) => HandleEnd(s, r, tag)
  }

  /** The events delivered so far, in document order. */
  function Run(s: State, events: seq<Event>): (t: State)
    requires Wf(s)
    ensures Wf(t)
    decreases |events|
  {
    if events == [] then s
    else Dispatch(Run(s, events[..|events| - 1]), events[|events| - 1])
  }

  /** Delivering one more event continues the run from where it stood. */
  lemma RunSnoc(s: State, events: seq<Event>, e: Event)
    requires Wf(s)
    ensures Run(s, events + [e]) == Dispatch(Run(s, events), e)
  {
    assert (events + [e])[..|events|] == events;
  }
}
