/**
 * The document embedded in main.swift, as the events the XML parser delivers
 * for it (whitespace between elements produces no start or end event), and the
 * run of the program on it, step by step.
 */
module SampleDocument {
  import opened Wrappers
  import opened XmlEvents
  import opened Records
  import opened ParserModel
  import Decimal
  import Program

  const Title := "Rise of Skywalker"
  const Daisy := "Daisy Ridley"
  const John := "John Boyega"
  const JJ := "JJ Abrams"

  /** `<movie …>`, `<actors>`, two self-closing `<person …/>`, `</actors>`, `<director …/>`, `</movie>`. */
  const SampleEvents: seq<Event> := [
    Start(MovieTag, map[TitleAttr := Title, ReleaseYearAttr := "2019"]),
    Start(ActorsTag, map[]),
    Start(PersonTag, map[NameAttr := Daisy]),
    End(PersonTag),
    Start(PersonTag, map[NameAttr := John]),
    End(PersonTag),
    End(ActorsTag),
    Start(DirectorTag, map[NameAttr := JJ]),
    End(DirectorTag),
    End(MovieTag)
  ]

  const Expected := Movie(Title, 2019, [Person(Daisy), Person(John)], Person(JJ))

  // The objects after each event, as the program's statements leave them.
  const M0 := MovieParser(MovieTag, None, None, None)
  const MT := MovieParser(MovieTag, Some(Title), Some(2019), None)
  const D0 := PersonParser(DirectorTag, None, None)
  const A0 := ArrayParser(ActorsTag, Some([]), None)
  const DaisyOpen := PersonParser(PersonTag, Some(Daisy), None)
  const DaisyDone := PersonParser(PersonTag, Some(Daisy), Some(Person(Daisy)))
  const JohnOpen := PersonParser(PersonTag, Some(John), None)
  const JohnDone := PersonParser(PersonTag, Some(John), Some(Person(John)))
  const Items := {MovieRef, ActorsRef, ItemRef(0), ItemRef(1)}

  const S0 := State([MovieRef], Some(MovieRef), {MovieRef}, M0, D0, A0, [], [], None)
  const S1 := S0.(movie := MT)
  const S2 := S1.(parsers := [MovieRef, ActorsRef], delegate := Some(ActorsRef), attached := {MovieRef, ActorsRef})
  const S3 := S2.(parsers := [MovieRef, ActorsRef, ItemRef(0)], delegate := Some(ItemRef(0)),
                  attached := {MovieRef, ActorsRef, ItemRef(0)},
                  actors := A0.(currentParser := Some(0)), items := [DaisyOpen])
  const S4 := S3.(parsers := [MovieRef, ActorsRef], delegate := Some(ActorsRef),
                  actors := ArrayParser(ActorsTag, Some([Person(Daisy)]), Some(0)), items := [DaisyDone],
                  notifications := [ActorsRef])
  const S5 := S4.(parsers := [MovieRef, ActorsRef, ItemRef(1)], delegate := Some(ItemRef(1)), attached := Items,
                  actors := ArrayParser(ActorsTag, Some([Person(Daisy)]), Some(1)), items := [DaisyDone, JohnOpen])
  const S6 := S5.(parsers := [MovieRef, ActorsRef], delegate := Some(ActorsRef),
                  actors := ArrayParser(ActorsTag, Some([Person(Daisy), Person(John)]), Some(1)),
                  items := [DaisyDone, JohnDone], notifications := [ActorsRef, ActorsRef])
  const S7 := S6.(parsers := [MovieRef], delegate := Some(MovieRef), notifications := [ActorsRef, ActorsRef, MovieRef])
  const S8 := S7.(parsers := [MovieRef, DirectorRef], delegate := Some(DirectorRef),
                  attached := Items + {DirectorRef}, director := PersonParser(DirectorTag, Some(JJ), None))
  const S9 := S8.(parsers := [MovieRef], delegate := Some(MovieRef),
                  director := PersonParser(DirectorTag, Some(JJ), Some(Person(JJ))),
                  notifications := [ActorsRef, ActorsRef, MovieRef, MovieRef])
  const S10 := S9.(parsers := [], delegate := None, movie := MT.(result := Some(Expected)))

  /** `<movie title=… releaseYear="2019">` sets the title and the integer year. */
  lemma OpenMovie() ensures Dispatch(S0, SampleEvents[0]) == S1 {
    Decimal.ParseReleaseYear();
  }
  /** `<actors>` pushes the actors parser, which ignores its own opening tag. */
  lemma OpenActors() ensures Dispatch(S1, SampleEvents[1]) == S2 { }
  /** The first `<person>` gets a new item parser holding "Daisy Ridley". */
  lemma OpenFirstPerson() ensures Dispatch(S2, SampleEvents[2]) == S3 { }
  /** Its end pops it, and the reactivated actors parser appends Daisy Ridley. */
  lemma CloseFirstPerson() ensures Dispatch(S3, SampleEvents[3]) == S4 {
    assert S3.parsers[..2] == [MovieRef, ActorsRef];
    assert [] + [Person(Daisy)] == [Person(Daisy)];
  }
  lemma OpenSecondPerson() ensures Dispatch(S4, SampleEvents[4]) == S5 { }
  lemma CloseSecondPerson() ensures Dispatch(S5, SampleEvents[5]) == S6 {
    assert S5.parsers[..2] == [MovieRef, ActorsRef];
    assert [DaisyDone, JohnOpen][1 := JohnDone] == [DaisyDone, JohnDone];
    assert [Person(Daisy)] + [Person(John)] == [Person(Daisy), Person(John)];
  }
  lemma CloseActors() ensures Dispatch(S6, SampleEvents[6]) == S7 { }
  lemma OpenDirector() ensures Dispatch(S7, SampleEvents[7]) == S8 { }
  lemma CloseDirector() ensures Dispatch(S8, SampleEvents[8]) == S9 { }
  /** `</movie>` assembles the movie and pops the last parser. */
  lemma CloseMovie() ensures Dispatch(S9, SampleEvents[9]) == S10 { }

  /** One more event of the sample takes the run from one state to the next. */
  lemma SampleStep(k: nat, before: State, after: State)
    requires k < |SampleEvents|
    requires Run(StartState(), SampleEvents[..k]) == before
    requires Dispatch(before, SampleEvents[k]) == after
    ensures Run(StartState(), SampleEvents[..k + 1]) == after
  {
    RunSnoc(StartState(), SampleEvents[..k], SampleEvents[k]);
    assert SampleEvents[..k + 1] == SampleEvents[..k] + [SampleEvents[k]];
  }

  // The run after the first k events of the sample.
  lemma After0() ensures Run(StartState(), SampleEvents[..0]) == S0 {
    assert SampleEvents[..0] == [];
  }
  lemma After1() ensures Run(StartState(), SampleEvents[..1]) == S1 {
    After0();
    OpenMovie();
    SampleStep(0, S0, S1);
  }
  lemma After2() ensures Run(StartState(), SampleEvents[..2]) == S2 {
    After1();
    OpenActors();
    SampleStep(1, S1, S2);
  }
  lemma After3() ensures Run(StartState(), SampleEvents[..3]) == S3 {
    After2();
    OpenFirstPerson();
    SampleStep(2, S2, S3);
  }
  lemma After4() ensures Run(StartState(), SampleEvents[..4]) == S4 {
    After3();
    CloseFirstPerson();
    SampleStep(3, S3, S4);
  }
  lemma After5() ensures Run(StartState(), SampleEvents[..5]) == S5 {
    After4();
    OpenSecondPerson();
    SampleStep(4, S4, S5);
  }
  lemma After6() ensures Run(StartState(), SampleEvents[..6]) == S6 {
    After5();
    CloseSecondPerson();
    SampleStep(5, S5, S6);
  }
  lemma After7() ensures Run(StartState(), SampleEvents[..7]) == S7 {
    After6();
    CloseActors();
    SampleStep(6, S6, S7);
  }
  lemma After8() ensures Run(StartState(), SampleEvents[..8]) == S8 {
    After7();
    OpenDirector();
    SampleStep(7, S7, S8);
  }
  lemma After9() ensures Run(StartState(), SampleEvents[..9]) == S9 {
    After8();
    CloseDirector();
    SampleStep(8, S8, S9);
  }
  lemma After10() ensures Run(StartState(), SampleEvents[..10]) == S10 {
    After9();
    CloseMovie();
    SampleStep(9, S9, S10);
  }

  /**
   * Starting from a stack holding only the movie parser, the sample document
   * leaves the stack empty with no delegate, and the movie parser's result is
   * the expected movie, actors in document order.
   */
  lemma SampleDocumentParses()
    ensures var s := Run(StartState(), SampleEvents);
      && s.parsers == [] && s.delegate == None && s.fault == None
      && s.movie.result == Some(Expected)
    ensures Program.RunProgram(SourceRun(SampleEvents, true)) == Program.Parsed(Expected)
  {
    After10();
    assert SampleEvents[..10] == SampleEvents;
  }
}
