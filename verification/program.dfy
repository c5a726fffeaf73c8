/**
 * The top level of main.swift: wire the movie parser in as the first delegate,
 * let the event source run, and read the movie parser's result.
 */
module Program {
  import opened Wrappers
  import opened XmlEvents
  import opened Records
  import opened ParserModel
  import ParserInvariant
  import ParserSession

  /**
   * What a run of the program ends in: the decoded movie, the source's report
   * that the XML was invalid, or a trap.
   */
  datatype Outcome = Parsed(movie: Movie) | InvalidXml | Crashed(fault: Fault)

  /**
   * A trap during parsing ends the program first; then `parse()` returning
   * false means invalid XML; otherwise `movieParser.result!` is read.
   */
  function Conclude(s: State, sourceSucceeded: bool): (r: Outcome)
    ensures s.fault.Some? ==> r == Crashed(s.fault.value)
    ensures s.fault.None? && !sourceSucceeded ==> r == InvalidXml
    ensures r.Parsed? <==> s.fault.None? && sourceSucceeded && s.movie.result.Some?
    ensures r.Parsed? ==> r.movie == s.movie.result.value
    ensures s.fault.None? && sourceSucceeded && s.movie.result.None? ==> r == Crashed(MissingMovieResult)
  {
    if s.fault.Some? then Crashed(s.fault.value)
    else if !sourceSucceeded then InvalidXml
    else
      match s.movie.result
      case None => Crashed(MissingMovieResult)
      case Some(m) => Parsed(m)
  }

  /** The whole program, as a function of one run of the event source. */
  function RunProgram(run: SourceRun): Outcome {
    Conclude(Run(StartState(), run.events), run.succeeded)
  }

  /** The program's statements, performed on the objects in place. */
  method ParseDocument(run: SourceRun) returns (outcome: Outcome)
    ensures outcome == RunProgram(run)
  {
    var session := new ParserSession.Session();
    session.Parse(run.events);
    if session.fault.Some? {
      outcome := Crashed(session.fault.value);
    } else if !run.succeeded {
      outcome := InvalidXml;
    } else if session.movie.result.None? {
      outcome := Crashed(MissingMovieResult);
    } else {
      outcome := Parsed(session.movie.result.value);
    }
  }

  /** Malformed XML never yields a movie, not even a partial one. */
  lemma MalformedNeverParses(run: SourceRun)
    requires !run.succeeded
    ensures !RunProgram(run).Parsed?
  {
  }

  /**
   * A movie is reported only after the whole document closed: the stack is
   * empty, and the movie's actors are the results of the item parsers, each
   * once and in the order their `<person>` elements opened.
   */
  lemma ParsedMeansClosed(run: SourceRun)
    requires RunProgram(run).Parsed?
    ensures var s := Run(StartState(), run.events);
      && s.parsers == [] && s.delegate == None
      && ParserInvariant.Collects(RunProgram(run).movie.actors, s.items)
  {
    var s := Run(StartState(), run.events);
    ParserInvariant.Reachable(run.events);
    FinishedMeansEmpty(run.events);
    assert ParserInvariant.ClosedItems(s) == s.items;
  }

  /** The movie parser stores a result only in the step that pops it, which empties the stack for good. */
  lemma {:induction false} FinishedMeansEmpty(events: seq<Event>)
    ensures var s := Run(StartState(), events);
      s.movie.result.Some? ==> s.parsers == [] && s.actors.result == Some(s.movie.result.value.actors)
    decreases |events|
  {
    if events != [] {
      var init := events[..|events| - 1];
      var s := Run(StartState(), init);
      var e := events[|events| - 1];
      FinishedMeansEmpty(init);
      ParserInvariant.Reachable(init);
      ParserInvariant.DispatchValid(s, e);
      var t := Dispatch(s, e);
      if t.movie.result.Some? && s.movie.result.None? {
        MovieResultSetOnlyByClose(s, e);
      }
    }
  }

  lemma MovieResultSetOnlyByClose(s: State, e: Event)
    requires ParserInvariant.Valid(s) && s.movie.result.None?
    ensures var t := Dispatch(s, e);
      t.movie.result.Some? ==>
        && e == End(MovieTag) && s.parsers == [MovieRef] && s.fault.None?
        && t.parsers == [] && t.delegate == None
        && t.actors.result == Some(t.movie.result.value.actors)
  {
    var t := Dispatch(s, e);
    if t.movie.result.Some? {
      assert s.fault.None? && s.parsers == [MovieRef] && e == End(MovieTag);
      ParserInvariant.MovieEndAssembles(s);
    }
  }
}
