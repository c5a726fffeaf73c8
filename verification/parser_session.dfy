/**
 * The objects of main.swift updated in place: the `ParserDelegateStack`, the
 * event source's `delegate` slot, and the fields of every parser object.
 * Each method does what the Swift function of the same name does, step by
 * step, and its postcondition says that the new state is the one the
 * corresponding `ParserModel` function gives for the old state.
 */
module ParserSession {
  import opened Wrappers
  import opened XmlEvents
  import opened Records
  import opened ParserModel
  import ParserInvariant

  class Session {
    // `notifications` logs every `didBecomeActive` call; it has no counterpart
    // in the program and exists only for the specification.
    var parsers: seq<ParserRef>
    var delegate: Option<ParserRef>
    var attached: set<ParserRef>
    var movie: MovieParser
    var director: PersonParser
    var actors: ArrayParser
    var items: seq<PersonParser>
    ghost var notifications: seq<ParserRef>
    var fault: Option<Fault>

    ghost function Snapshot(): State
      reads this
    {
      State(parsers, delegate, attached, movie, director, actors, items, notifications, fault)
    }

    /** The stack, the movie parser with the two parsers it owns, and `delegateStack.push(movieParser)`. */
    constructor ()
      ensures Snapshot() == ParserModel.StartState()
      ensures ParserInvariant.Valid(Snapshot())
    {
      parsers, delegate, attached := [], None, {};
      movie := MovieParser(MovieTag, None, None, None);
      director := PersonParser(DirectorTag, None, None);
      actors := ArrayParser(ActorsTag, Some([]), None);
      items, notifications, fault := [], [], None;
      new;
      Push(MovieRef);
      ParserInvariant.StartValid();
    }

    method Push(p: ParserRef)
      requires Wf(Snapshot()) && Exists(Snapshot(), p)
      modifies this
      ensures Snapshot() == ParserModel.Push(old(Snapshot()), p)
      ensures parsers == old(parsers) + [p] && delegate == Some(p) && p in attached
    {
      attached := attached + {p};
      delegate := Some(p);
      parsers := parsers + [p];
    }

    method Pop()
      requires Wf(Snapshot())
      modifies this
      ensures Snapshot() == ParserModel.Pop(old(Snapshot()))
      ensures old(parsers) == [] ==> fault == Some(EmptyStackPop) && parsers == []
      ensures old(parsers) != [] ==>
        && parsers == old(parsers)[..|old(parsers)| - 1]
        && delegate == (if parsers == [] then None else Some(parsers[|parsers| - 1]))
        && notifications == old(notifications) + (if parsers == [] then [] else [parsers[|parsers| - 1]])
    {
      if parsers == [] {
        fault := Some(EmptyStackPop);
        return;
      }
      parsers := parsers[..|parsers| - 1];
      if parsers != [] {
        var next := parsers[|parsers| - 1];
        delegate := Some(next);
        DidBecomeActive(next);
      } else {
        delegate := None;
      }
    }

    method DidBecomeActive(r: ParserRef)
      requires Wf(Snapshot()) && Exists(Snapshot(), r)
      modifies this
      ensures Snapshot() == ParserModel.DidBecomeActive(old(Snapshot()), r)
    {
      notifications := notifications + [r];
      if r == ActorsRef {
        ArrayDidBecomeActive();
      }
    }

    method PersonStart(r: ParserRef, tag: string, attrs: map<string, string>)
      requires Wf(Snapshot()) && IsPersonRef(Snapshot(), r)
      modifies this
      ensures Snapshot() == ParserModel.PersonStart(old(Snapshot()), r, tag, attrs)
    {
      var p := if r == DirectorRef then director else items[r.index];
      if tag == p.tagName {
        SetPerson(r, p.(name := Lookup(attrs, NameAttr)));
      }
    }

    method PersonEnd(r: ParserRef, tag: string)
      requires Wf(Snapshot()) && IsPersonRef(Snapshot(), r)
      modifies this
      ensures Snapshot() == ParserModel.PersonEnd(old(Snapshot()), r, tag)
    {
      var p := if r == DirectorRef then director else items[r.index];
      if tag == p.tagName {
        if p.name.None? {
          fault := Some(MissingName(p.tagName));
          return;
        }
        SetPerson(r, p.(result := Some(Person(p.name.value))));
        Pop();
      }
    }

    method SetPerson(r: ParserRef, p: PersonParser)
      requires Wf(Snapshot()) && IsPersonRef(Snapshot(), r)
      modifies this
      ensures Snapshot() == ParserModel.SetPerson(old(Snapshot()), r, p)
    {
      if r == DirectorRef {
        director := p;
      } else {
        items := items[r.index := p];
      }
    }

    method ArrayStart(tag: string, attrs: map<string, string>)
      requires Wf(Snapshot())
      modifies this
      ensures Snapshot() == ParserModel.ArrayStart(old(Snapshot()), tag, attrs)
    {
      if tag == actors.tagName {
        return;
      }
      var built := BuildItemParser(tag);
      if built.Some? {
        var k := |items|;
        items := items + [built.value];
        actors := actors.(currentParser := Some(k));
        Push(ItemRef(k));
        PersonStart(ItemRef(k), tag, attrs);
      }
    }

    method ArrayEnd(tag: string)
      requires Wf(Snapshot())
      modifies this
      ensures Snapshot() == ParserModel.ArrayEnd(old(Snapshot()), tag)
    {
      if tag == actors.tagName {
        Pop();
      }
    }

    method ArrayDidBecomeActive()
      requires Wf(Snapshot())
      modifies this
      ensures Snapshot() == ParserModel.ArrayDidBecomeActive(old(Snapshot()))
    {
      if actors.currentParser.None? {
        return;
      }
      var item := items[actors.currentParser.value].result;
      if item.None? {
        return;
      }
      if actors.result.Some? {
        actors := actors.(result := Some(actors.result.value + [item.value]));
      }
    }

    method MovieStart(tag: string, attrs: map<string, string>)
      requires Wf(Snapshot())
      modifies this
      ensures Snapshot() == ParserModel.MovieStart(old(Snapshot()), tag, attrs)
    {
      if tag == movie.tagName {
        movie := movie.(title := Lookup(attrs, TitleAttr), releaseYear := ReleaseYearOf(attrs));
        return;
      }
      if tag == DirectorTag {
        Push(DirectorRef);
        PersonStart(DirectorRef, tag, attrs);
      } else if tag == ActorsTag {
        Push(ActorsRef);
        ArrayStart(tag, attrs);
      }
    }

    method MovieEnd(tag: string)
      requires Wf(Snapshot())
      modifies this
      ensures Snapshot() == ParserModel.MovieEnd(old(Snapshot()), tag)
    {
      if tag == movie.tagName {
        var built := Assemble(movie.title, movie.releaseYear, actors.result, director.result);
        if built.Failure? {
          fault := Some(built.error);
          return;
        }
        movie := movie.(result := Some(built.value));
        Pop();
      }
    }

    /** The event source calling its current delegate. */
    method Dispatch(e: Event)
      requires Wf(Snapshot())
      modifies this
      ensures Snapshot() == ParserModel.Dispatch(old(Snapshot()), e)
      ensures ParserInvariant.Valid(old(Snapshot())) ==> ParserInvariant.Valid(Snapshot())
    {
      if ParserInvariant.Valid(Snapshot()) {
        ParserInvariant.DispatchValid(Snapshot(), e);
      }
      if fault.Some? || delegate.None? {
        return;
      }
      var r := delegate.value;
      match e {
        case Start(tag, attrs) =>
          match r {
            case MovieRef => MovieStart(tag, attrs);
            case ActorsRef => ArrayStart(tag, attrs);
            case DirectorRef => PersonStart(r, tag, attrs);
            case ItemRef(_) => PersonStart(r, tag, attrs);
          }
        case End(tag) =>
          match r {
            case MovieRef => MovieEnd(tag);
            case ActorsRef => ArrayEnd(tag);
            case DirectorRef => PersonEnd(r, tag);
            case ItemRef(_) => PersonEnd(r, tag);
          }
      }
    }

    /** `xmlParser.parse()`: deliver the events one at a time, in document order. */
    method Parse(events: seq<Event>)
      requires Wf(Snapshot())
      modifies this
      ensures Snapshot() == Run(old(Snapshot()), events)
      ensures ParserInvariant.Valid(old(Snapshot())) ==> ParserInvariant.Valid(Snapshot())
    {
      ghost var start := Snapshot();
      if ParserInvariant.Valid(start) {
        ParserInvariant.RunValid(start, events);
      }
      var i := 0;
      while i < |events|
        invariant 0 <= i <= |events|
        invariant Wf(Snapshot())
        invariant Snapshot() == Run(start, events[..i])
      {
        RunSnoc(start, events[..i], events[i]);
        assert events[..i + 1] == events[..i] + [events[i]];
        Dispatch(events[i]);
        i := i + 1;
      }
      assert events[..|events|] == events;
    }
  }
}
