/**
 * What holds of every state the program reaches, and why the ArrayParser's
 * `currentParser`, which is never cleared, cannot make it append an item twice
 * under the configuration that MovieParser builds.
 */
module ParserInvariant {
  import opened Wrappers
  import opened XmlEvents
  import opened Records
  import opened ParserModel

  /** The event source's delegate is the last parser on the stack, and nil exactly when the stack is empty. */
  ghost predicate ActiveIsTop(s: State) {
    s.delegate == if s.parsers == [] then None else Some(s.parsers[|s.parsers| - 1])
  }

  /** Every parser on the stack has its `delegateStack` back-reference set. */
  ghost predicate Attached(s: State) {
    forall i | 0 <= i < |s.parsers| :: s.parsers[i] in s.attached
  }

  /** The tag names the program wires in. */
  ghost predicate Configured(s: State) {
    && s.movie.tagName == MovieTag
    && s.director.tagName == DirectorTag
    && s.actors.tagName == ActorsTag
    && (forall k | 0 <= k < |s.items| :: s.items[k].tagName == PersonTag)
  }

  /** An item parser is on the stack (it has seen `<person>` but not yet `</person>`). */
  ghost predicate ItemOpen(s: State) {
    s.parsers != [] && s.parsers[|s.parsers| - 1].ItemRef?
  }

  /**
   * The stacks that can occur: the movie parser at the bottom, above it at most
   * the director parser or the actors parser, and above the actors parser at
   * most the item parser built last, which is `currentParser` and has no result yet.
   */
  ghost predicate Shape(s: State) {
    || s.parsers == []
    || s.parsers == [MovieRef]
    || s.parsers == [MovieRef, DirectorRef]
    || s.parsers == [MovieRef, ActorsRef]
    || (&& |s.items| > 0
        && s.parsers == [MovieRef, ActorsRef, ItemRef(|s.items| - 1)]
        && s.actors.currentParser == Some(|s.items| - 1)
        && s.items[|s.items| - 1].result.None?)
  }

  /** The item parsers that have seen their end tag and been popped, in the order they were built. */
  ghost function ClosedItems(s: State): seq<PersonParser> {
    if ItemOpen(s) && |s.items| > 0 then s.items[..|s.items| - 1] else s.items
  }

  /** `list` holds the result of each parser of `ps`, once each and in the same order. */
  ghost predicate Collects(list: seq<Person>, ps: seq<PersonParser>) {
    |list| == |ps| && forall k | 0 <= k < |ps| :: ps[k].result == Some(list[k])
  }

  ghost predicate Valid(s: State) {
    && Wf(s)
    && ActiveIsTop(s)
    && Attached(s)
    && Configured(s)
    && Shape(s)
    && s.actors.result.Some?
    && Collects(s.actors.result.value, ClosedItems(s))
  }

  /**
   * What one event does to the notification log and to the actors' list: at
   * most one `didBecomeActive`, the list only grows, by at most one item, and it
   * grows only when the actors parser is reactivated by the pop of the item
   * parser it built last, by that item's result.
   */
  ghost predicate OneStep(s: State, t: State)
    requires Valid(s) && Valid(t)
  {
    var xs, ys := s.actors.result.value, t.actors.result.value;
    && |s.notifications| <= |t.notifications| <= |s.notifications| + 1
    && t.notifications[..|s.notifications|] == s.notifications
    && |xs| <= |ys| <= |xs| + 1
    && ys[..|xs|] == xs
    && (|ys| == |xs| + 1 <==> t.notifications == s.notifications + [ActorsRef])
    && (|ys| == |xs| + 1 ==>
          && |s.items| > 0
          && s.parsers == [MovieRef, ActorsRef, ItemRef(|s.items| - 1)]
          && t.parsers == [MovieRef, ActorsRef]
          && t.items[|s.items| - 1].result == Some(ys[|xs|]))
  }

  // ---------------------------------------------------------------- the stack on its own

  /** Push keeps the delegate on top of the stack, grows the stack by `p` alone and attaches `p`. */
  lemma PushActivates(s: State, p: ParserRef)
    requires Wf(s) && Exists(s, p) && Attached(s)
    ensures var t := Push(s, p);
      && ActiveIsTop(t) && Attached(t)
      && |t.parsers| == |s.parsers| + 1 && t.parsers[..|s.parsers|] == s.parsers
      && t.parsers[|s.parsers|] == p && t.delegate == Some(p) && p in t.attached
      && t.notifications == s.notifications
  {
    var t := Push(s, p);
    assert t.parsers[..|s.parsers|] == s.parsers;
  }

  /**
   * Pop removes exactly the last parser; the new last one becomes the delegate
   * and is the only parser notified, and with an empty stack nobody is.
   */
  lemma PopReactivates(s: State)
    requires Wf(s) && Attached(s) && s.parsers != []
    ensures var t := Pop(s); var n := |s.parsers| - 1;
      && ActiveIsTop(t) && Attached(t)
      && t.parsers == s.parsers[..n]
      && t.fault == s.fault && t.items == s.items && t.movie == s.movie && t.director == s.director
      && t.attached == s.attached && t.actors == s.actors.(result := t.actors.result)
      && (n == 0 ==> t.notifications == s.notifications && t.delegate == None && t.actors == s.actors)
      && (n > 0 ==> t.notifications == s.notifications + [s.parsers[n - 1]])
      && (n > 0 && s.parsers[n - 1] != ActorsRef ==> t.actors == s.actors)
  {
  }

  /** Popping what was just pushed restores the stack and the delegate, and notifies the old top once. */
  lemma PushThenPop(s: State, p: ParserRef)
    requires Wf(s) && Exists(s, p) && ActiveIsTop(s)
    ensures var t := Pop(Push(s, p));
      && t.parsers == s.parsers && t.delegate == s.delegate
      && t.notifications == s.notifications + (if s.parsers == [] then [] else [s.parsers[|s.parsers| - 1]])
      && t.items == s.items && t.fault == s.fault && p in t.attached
  {
    var u := Push(s, p);
    assert u.parsers[..|u.parsers| - 1] == s.parsers;
  }

  // ---------------------------------------------------------------- ArrayParser

  /** Its own start tag, and every tag the builder refuses, leave everything as it was. */
  lemma ArrayStartIgnores(s: State, tag: string, attrs: map<string, string>)
    requires Wf(s) && (tag == s.actors.tagName || tag != PersonTag)
    ensures ArrayStart(s, tag, attrs) == s
  {
  }

  /**
   * `<person>` builds a new item parser, makes it `currentParser`, pushes it and
   * forwards the event, so the item's name is the element's `name` attribute.
   */
  lemma ArrayStartPushesItem(s: State, attrs: map<string, string>)
    requires Wf(s) && s.actors.tagName != PersonTag
    ensures var t := ArrayStart(s, PersonTag, attrs); var k := |s.items|;
      && t.items == s.items + [PersonParser(PersonTag, Lookup(attrs, NameAttr), None)]
      && t.parsers == s.parsers + [ItemRef(k)] && t.delegate == Some(ItemRef(k))
      && t.actors == s.actors.(currentParser := Some(k))
      && t.attached == s.attached + {ItemRef(k)}
      && t.movie == s.movie && t.director == s.director
      && t.notifications == s.notifications && t.fault == s.fault
  {
  }

  /**
   * Its own end tag pops it: the stack loses exactly its top entry, the new top
   * is the delegate and the one parser notified, and no parser's fields change
   * except the actors parser's own; every other end tag is ignored.
   */
  lemma ArrayEndPops(s: State, tag: string)
    requires Wf(s) && Attached(s)
    ensures var t := ArrayEnd(s, tag); var n := |s.parsers| - 1;
      && (tag != s.actors.tagName ==> t == s)
      && (tag == s.actors.tagName && s.parsers == [] ==> t.fault == Some(EmptyStackPop) && t.parsers == [])
      && (tag == s.actors.tagName && s.parsers != [] ==>
            && t.parsers == s.parsers[..n]
            && ActiveIsTop(t) && Attached(t)
            && t.notifications == s.notifications + (if n == 0 then [] else [s.parsers[n - 1]])
            && t.items == s.items && t.movie == s.movie && t.director == s.director
            && t.fault == s.fault)
  {
    if tag == s.actors.tagName && s.parsers != [] {
      PopReactivates(s);
    }
  }

  /**
   * One `didBecomeActive` appends at most one item to the end of the list, and
   * the item it appends is the result of `currentParser`.
   */
  lemma ArrayReactivationAppendsAtMostOne(s: State)
    requires Wf(s) && s.actors.result.Some?
    ensures var t := ArrayDidBecomeActive(s); var xs := s.actors.result.value;
      && t.actors.result.Some?
      && var ys := t.actors.result.value;
      && |xs| <= |ys| <= |xs| + 1 && ys[..|xs|] == xs
      && (|ys| == |xs| + 1 <==> s.actors.currentParser.Some? && s.items[s.actors.currentParser.value].result.Some?)
      && (|ys| == |xs| + 1 ==> s.items[s.actors.currentParser.value].result == Some(ys[|xs|]))
      && t == s.(actors := s.actors.(result := t.actors.result))
  {
    var t := ArrayDidBecomeActive(s);
    var xs := s.actors.result.value;
    assert t.actors.result.value[..|xs|] == xs;
  }

  /**
   * As written, a reactivation that does not follow the pop of a new child
   * appends the old child's result again: `currentParser` is never cleared.
   */
  lemma StaleReactivationReappends(s: State)
    requires Wf(s) && s.actors.result.Some?
    requires s.actors.currentParser.Some? && s.items[s.actors.currentParser.value].result.Some?
    ensures var item := s.items[s.actors.currentParser.value].result.value;
      ArrayDidBecomeActive(ArrayDidBecomeActive(s)).actors.result == Some(s.actors.result.value + [item, item])
  {
    var item := s.items[s.actors.currentParser.value].result.value;
    assert s.actors.result.value + [item] + [item] == s.actors.result.value + [item, item];
  }

  // ---------------------------------------------------------------- PersonParser

  /**
   * Its own start tag sets `name` to the `name` attribute, or to nil when the
   * attribute is absent; other tags change nothing. No other object, and
   * neither the stack nor the delegate, is touched.
   */
  lemma PersonStartRecordsName(s: State, r: ParserRef, tag: string, attrs: map<string, string>)
    requires Wf(s) && IsPersonRef(s, r)
    ensures var t := PersonStart(s, r, tag, attrs); var p := PersonOf(s, r);
      && IsPersonRef(t, r)
      && PersonOf(t, r).tagName == p.tagName && PersonOf(t, r).result == p.result
      && (tag == p.tagName && NameAttr in attrs ==> PersonOf(t, r).name == Some(attrs[NameAttr]))
      && (tag == p.tagName && NameAttr !in attrs ==> PersonOf(t, r).name == None)
      && (tag != p.tagName ==> t == s)
      && t.parsers == s.parsers && t.delegate == s.delegate && t.attached == s.attached
      && t.movie == s.movie && t.actors == s.actors
      && t.notifications == s.notifications && t.fault == s.fault
      && |t.items| == |s.items|
      && (r != DirectorRef ==> t.director == s.director)
      && (forall k | 0 <= k < |s.items| && r != ItemRef(k) :: t.items[k] == s.items[k])
  {
  }

  /**
   * Its own end tag without a name is a trap; with a name it stores
   * `Person(name)` as its result and pops exactly once; other tags change nothing.
   */
  lemma PersonEndBuildsAndPops(s: State, r: ParserRef, tag: string)
    requires Wf(s) && IsPersonRef(s, r) && Attached(s) && s.parsers != []
    ensures var t := PersonEnd(s, r, tag); var p := PersonOf(s, r);
      && (tag != p.tagName ==> t == s)
      && (tag == p.tagName && p.name.None? ==> t == s.(fault := Some(MissingName(tag))))
      && (tag == p.tagName && p.name.Some? ==>
            && PersonOf(t, r).result == Some(Person(p.name.value))
            && t.parsers == s.parsers[..|s.parsers| - 1]
            && t.fault == s.fault)
  {
    var p := PersonOf(s, r);
    if tag == p.tagName && p.name.Some? {
      var s1 := SetPerson(s, r, p.(result := Some(Person(p.name.value))));
      PopReactivates(s1);
    }
  }

  // ---------------------------------------------------------------- MovieParser

  /**
   * Its own start tag reads `title` and the integer `releaseYear`; `director`
   * and `actors` push the owned child and hand it the same event, which the
   * child takes as its own opening tag; other tags change nothing.
   */
  lemma MovieStartCases(s: State, tag: string, attrs: map<string, string>)
    requires Wf(s) && Configured(s)
    ensures var t := MovieStart(s, tag, attrs);
      && (tag == MovieTag ==>
            && t == s.(movie := t.movie)
            && t.movie == s.movie.(title := Lookup(attrs, TitleAttr), releaseYear := ReleaseYearOf(attrs)))
      && (tag == DirectorTag ==>
            && t.parsers == s.parsers + [DirectorRef] && t.delegate == Some(DirectorRef)
            && t.director == s.director.(name := Lookup(attrs, NameAttr))
            && t.actors == s.actors && t.items == s.items)
      && (tag == ActorsTag ==>
            && t.parsers == s.parsers + [ActorsRef] && t.delegate == Some(ActorsRef)
            && t.actors == s.actors && t.items == s.items && t.director == s.director)
      && (tag !in {MovieTag, DirectorTag, ActorsTag} ==> t == s)
  {
  }

  /**
   * `releaseYear` is absent when the attribute is missing. When the attribute
   * is a numeral (an optional sign, any leading zeros, then the digits of `n`),
   * it is that numeral's value if the value fits in an `Int`, and absent if not.
   */
  lemma ReleaseYearConversion(attrs: map<string, string>, sign: string, k: nat, n: nat)
    requires sign == "" || sign == "+" || sign == "-"
    ensures ReleaseYearAttr !in attrs ==> ReleaseYearOf(attrs) == None
    ensures var v := Decimal.Signed(sign, n);
      ReleaseYearAttr in attrs && attrs[ReleaseYearAttr] == sign + Decimal.Zeros(k) + Decimal.NatDigits(n) ==>
        ReleaseYearOf(attrs) == if Decimal.IntMin <= v <= Decimal.IntMax then Some(v) else None
  {
    Decimal.ParsePadded(sign, k, n);
  }

  /**
   * Text that is not a numeral gives no `releaseYear`: empty text, a bare sign,
   * or a non-digit anywhere but in a leading sign position. A year that is
   * present always fits in an `Int`.
   */
  lemma ReleaseYearRejects(attrs: map<string, string>, i: nat)
    requires ReleaseYearAttr in attrs
    ensures var text := attrs[ReleaseYearAttr];
      && (text == [] || text == "+" || text == "-" ==> ReleaseYearOf(attrs) == None)
      && (i < |text| && !Decimal.IsDigit(text[i]) && (i == 0 ==> !Decimal.HasSign(text)) ==> ReleaseYearOf(attrs) == None)
      && (ReleaseYearOf(attrs).Some? ==> Decimal.IntMin <= ReleaseYearOf(attrs).value <= Decimal.IntMax)
  {
    var text := attrs[ReleaseYearAttr];
    if text == [] || text == "+" || text == "-" {
      Decimal.NoDigitsRejected(text);
    }
    if i < |text| && !Decimal.IsDigit(text[i]) && (i == 0 ==> !Decimal.HasSign(text)) {
      Decimal.NonDigitRejected(text, i);
    }
  }

  /**
   * Its own end tag traps unless title, year, the actors' list and the
   * director's result are all present; otherwise it stores the Movie built
   * from them and pops.
   */
  lemma MovieEndAssembles(s: State)
    requires Wf(s) && Attached(s) && s.parsers != [] && Configured(s)
    ensures var t := MovieEnd(s, MovieTag); var m := s.movie;
      && var complete := m.title.Some? && m.releaseYear.Some? && s.actors.result.Some? && s.director.result.Some?;
      && (!complete ==> t.fault.Some? && t.parsers == s.parsers && t.movie == s.movie)
      && (complete ==>
            && t.movie.result == Some(Movie(m.title.value, m.releaseYear.value, s.actors.result.value, s.director.result.value))
            && t.parsers == s.parsers[..|s.parsers| - 1]
            && t.fault == s.fault)
  {
    var m := s.movie;
    var built := Assemble(m.title, m.releaseYear, s.actors.result, s.director.result);
    if built.Success? {
      PopReactivates(s.(movie := m.(result := Some(built.value))));
    }
  }

  // ---------------------------------------------------------------- the invariant

  lemma StartValid()
    ensures Valid(StartState())
  {
  }

  lemma MovieTopStep(s: State, e: Event)
    requires Valid(s) && s.fault.None? && s.parsers == [MovieRef]
    ensures Valid(Dispatch(s, e)) && OneStep(s, Dispatch(s, e))
  {
    var t := Dispatch(s, e);
    assert ClosedItems(s) == s.items;
    match e
    case Start(tag, attrs) =>
      MovieStartCases(s, tag, attrs);
      assert ClosedItems(t) == t.items;
    case End(tag) =>
      if tag == MovieTag {
        MovieEndAssembles(s);
      }
      assert ClosedItems(t) == t.items;
  }

  lemma DirectorTopStep(s: State, e: Event)
    requires Valid(s) && s.fault.None? && s.parsers == [MovieRef, DirectorRef]
    ensures Valid(Dispatch(s, e)) && OneStep(s, Dispatch(s, e))
  {
    var t := Dispatch(s, e);
    assert ClosedItems(s) == s.items;
    match e
    case Start(tag, attrs) =>
      assert ClosedItems(t) == t.items;
    case End(tag) =>
      PersonEndBuildsAndPops(s, DirectorRef, tag);
      assert ClosedItems(t) == t.items;
  }

  lemma ActorsTopStep(s: State, e: Event)
    requires Valid(s) && s.fault.None? && s.parsers == [MovieRef, ActorsRef]
    ensures Valid(Dispatch(s, e)) && OneStep(s, Dispatch(s, e))
  {
    match e
    case Start(tag, attrs) =>
      ActorsStartStep(s, tag, attrs);
    case End(tag) =>
      var t := Dispatch(s, e);
      assert ClosedItems(s) == s.items;
      assert ClosedItems(t) == t.items;
  }

  lemma ActorsStartStep(s: State, tag: string, attrs: map<string, string>)
    requires Valid(s) && s.fault.None? && s.parsers == [MovieRef, ActorsRef]
    ensures var t := Dispatch(s, Start(tag, attrs));
      Valid(t) && OneStep(s, t)
  {
    if tag != ActorsTag && tag == PersonTag {
      ActorsOpenItemStep(s, attrs);
    } else {
      ArrayStartIgnores(s, tag, attrs);
      assert ClosedItems(s) == s.items;
    }
  }

  /** `<person>` under `<actors>`: a new open item parser, and the list is unchanged. */
  lemma ActorsOpenItemStep(s: State, attrs: map<string, string>)
    requires Valid(s) && s.fault.None? && s.parsers == [MovieRef, ActorsRef]
    ensures var t := Dispatch(s, Start(PersonTag, attrs)); var k := |s.items|;
      && Valid(t) && OneStep(s, t)
      && t.parsers == s.parsers + [ItemRef(k)] && t.delegate == Some(ItemRef(k))
      && t.items == s.items + [PersonParser(PersonTag, Lookup(attrs, NameAttr), None)]
      && t.notifications == s.notifications && t.actors.result == s.actors.result
  {
    var t := Dispatch(s, Start(PersonTag, attrs));
    var k := |s.items|;
    assert t == ArrayStart(s, PersonTag, attrs);
    ArrayStartPushesItem(s, attrs);
    assert t.parsers == [MovieRef, ActorsRef, ItemRef(k)];
    assert t.items[..k] == s.items;
    assert ClosedItems(s) == s.items;
    assert ClosedItems(t) == s.items;
    assert Shape(t);
    assert t.notifications[..|s.notifications|] == s.notifications;
    assert t.actors.result.value[..|s.actors.result.value|] == s.actors.result.value;
  }

  lemma ItemTopStep(s: State, e: Event)
    requires Valid(s) && s.fault.None? && ItemOpen(s)
    ensures Valid(Dispatch(s, e)) && OneStep(s, Dispatch(s, e))
    ensures var t := Dispatch(s, e); var p := s.items[|s.items| - 1];
      && (e == End(PersonTag) && p.name.Some? ==>
            && t.parsers == [MovieRef, ActorsRef]
            && t.notifications == s.notifications + [ActorsRef]
            && t.actors.result == Some(s.actors.result.value + [Person(p.name.value)]))
      && (e == End(PersonTag) && p.name.None? ==> t.fault == Some(MissingName(PersonTag)))
      && (e != End(PersonTag) ==> t.parsers == s.parsers && t.notifications == s.notifications && t.actors == s.actors)
  {
    var k := |s.items| - 1;
    assert s.parsers == [MovieRef, ActorsRef, ItemRef(k)];
    match e
    case Start(tag, attrs) =>
      var t := Dispatch(s, e);
      assert ClosedItems(s) == s.items[..k];
      if tag == PersonTag {
        assert t.items[..k] == s.items[..k];
        assert ClosedItems(t) == t.items[..k];
      }
    case End(tag) =>
      var p := s.items[k];
      if tag == PersonTag && p.name.Some? {
        ItemCloseStep(s);
      } else {
        assert ClosedItems(s) == s.items[..k];
      }
  }

  /**
   * `</person>` on the open item parser: it stores its result and pops, the
   * actors parser is notified once, and the actors' list gains exactly that result.
   */
  lemma ItemCloseStep(s: State)
    requires Valid(s) && s.fault.None? && ItemOpen(s)
    requires s.items[|s.items| - 1].name.Some?
    ensures var t := Dispatch(s, End(PersonTag)); var k := |s.items| - 1; var name := s.items[k].name.value;
      && Valid(t) && OneStep(s, t)
      && t.parsers == [MovieRef, ActorsRef] && t.delegate == Some(ActorsRef)
      && t.notifications == s.notifications + [ActorsRef]
      && |t.items| == |s.items| && t.items[k].result == Some(Person(name))
      && t.actors.result == Some(s.actors.result.value + [Person(name)])
  {
    var k := |s.items| - 1;
    var r := ItemRef(k);
    var t := Dispatch(s, End(PersonTag));
    var xs := s.actors.result.value;
    var p := s.items[k];
    assert s.parsers == [MovieRef, ActorsRef, r];
    assert ClosedItems(s) == s.items[..k];
    var s1 := SetPerson(s, r, p.(result := Some(Person(p.name.value))));
    assert s1.items[..k] == s.items[..k];
    assert t.parsers == [MovieRef, ActorsRef];
    assert t.items == s1.items;
    assert t.actors.result.value == xs + [Person(p.name.value)];
    assert ClosedItems(t) == s1.items;
    assert t.actors.result.value[..|xs|] == xs;
  }

  /** Every event keeps the invariant and takes one well-behaved step. */
  lemma DispatchValid(s: State, e: Event)
    requires Valid(s)
    ensures Valid(Dispatch(s, e)) && OneStep(s, Dispatch(s, e))
  {
    if s.fault.Some? || s.delegate.None? {
      assert Dispatch(s, e) == s;
      assert s.notifications[..|s.notifications|] == s.notifications;
      assert s.actors.result.value[..|s.actors.result.value|] == s.actors.result.value;
    } else if s.parsers == [MovieRef] {
      MovieTopStep(s, e);
    } else if s.parsers == [MovieRef, DirectorRef] {
      DirectorTopStep(s, e);
    } else if s.parsers == [MovieRef, ActorsRef] {
      ActorsTopStep(s, e);
    } else {
      ItemTopStep(s, e);
    }
  }

  lemma {:induction false} RunValid(s: State, events: seq<Event>)
    requires Valid(s)
    ensures Valid(Run(s, events))
    decreases |events|
  {
    if events != [] {
      RunValid(s, events[..|events| - 1]);
      DispatchValid(Run(s, events[..|events| - 1]), events[|events| - 1]);
    }
  }

  /**
   * Every state the program reaches, whatever the events: the delegate is the
   * top of the stack, the actors' list is present, and it holds each finished
   * item's result exactly once, in the order the items were built.
   */
  lemma Reachable(events: seq<Event>)
    ensures Valid(Run(StartState(), events))
  {
    StartValid();
    RunValid(StartState(), events);
  }

  /**
   * In every reachable state the actors parser is reactivated only by the pop
   * of the item parser it built last, so the `currentParser` it reads then is
   * never stale, and the one item it appends is that parser's fresh result.
   */
  lemma ReactivatedOnlyByOwnChild(s: State, e: Event)
    requires Valid(s)
    ensures |s.notifications| <= |Dispatch(s, e).notifications|
    ensures var t := Dispatch(s, e);
      ActorsRef in t.notifications[|s.notifications|..] ==>
        && 0 < |s.items| <= |t.items|
        && s.parsers == [MovieRef, ActorsRef, ItemRef(|s.items| - 1)]
        && s.actors.currentParser == Some(|s.items| - 1)
        && s.items[|s.items| - 1].result.None?
        && t.items[|s.items| - 1].result.Some?
        && t.actors.result == Some(s.actors.result.value + [t.items[|s.items| - 1].result.value])
  {
    DispatchValid(s, e);
    ReactivationAfterStep(s, Dispatch(s, e));
  }

  lemma ReactivationAfterStep(s: State, t: State)
    requires Valid(s) && Valid(t) && OneStep(s, t)
    ensures ActorsRef in t.notifications[|s.notifications|..] ==>
        && 0 < |s.items| <= |t.items|
        && s.parsers == [MovieRef, ActorsRef, ItemRef(|s.items| - 1)]
        && s.actors.currentParser == Some(|s.items| - 1)
        && s.items[|s.items| - 1].result.None?
        && t.items[|s.items| - 1].result.Some?
        && t.actors.result == Some(s.actors.result.value + [t.items[|s.items| - 1].result.value])
  {
    var n := |s.notifications|;
    var xs, ys := s.actors.result.value, t.actors.result.value;
    if ActorsRef in t.notifications[n..] {
      assert t.notifications == t.notifications[..n] + t.notifications[n..];
      assert t.notifications == s.notifications + [ActorsRef];
      assert ys == ys[..|xs|] + [ys[|xs|]];
    }
  }
}
