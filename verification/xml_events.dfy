/**
 * The events that Foundation's streaming XML parser delivers to its delegate.
 * The tokenizer itself is not part of this model: a run of it is given as the
 * sequence of events it delivered plus the Boolean that `parse()` returned.
 */
module XmlEvents {
  import opened Wrappers

  /** didStartElement (with its attribute dictionary) and didEndElement. */
  datatype Event =
    | Start(tag: string, attrs: map<string, string>)
    | End(tag: string)

  /** One run of the event source: what it delivered, and whether it reported success. */
  datatype SourceRun = SourceRun(events: seq<Event>, succeeded: bool)

  /** `attributeDict[key]`: the attribute's raw value, absent when the element lacks it. */
  function Lookup(attrs: map<string, string>, key: string): (r: Option<string>)
    ensures r.Some? <==> key in attrs
    ensures r.Some? ==> r.value == attrs[key]
  {
    if key in attrs then Some(attrs[key]) else None
  }
}
