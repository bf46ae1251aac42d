/**
 * The shape of what the remote systems return, as far as the core reads it: a TFS record
 * with its `_links` map and its `fields` map, and the link and title extraction rules
 * shared by every TFS lookup.
 */
module Remote {
  import opened Wrappers
  import opened Text

  /** An entry of a record's link map; only reference links carry an address. */
  datatype Link = ReferenceLink(href: string) | OtherLink

  /** A work item, changeset or commit returned by a TFS client. */
  datatype TfsRecord = TfsRecord(links: map<string, Link>, fields: map<string, NString>)

  /** The link relation naming a work item's browser page. */
  const HtmlRel: string := "html"

  /** The link relation naming a changeset's or commit's browser page. */
  const WebRel: string := "web"

  /** The field holding a work item's title. */
  const TitleKey: string := "System.Title"

  /** The message `Dictionary` throws for a missing key. */
  const KeyNotFoundMessage: string := "The given key was not present in the dictionary."

  /**
   * `record.Links.Links.TryGetValue(rel, out var l) && l is ReferenceLink r ? r.Href : null`,
   * with a null record giving no address.
   */
  function LinkHref(record: Option<TfsRecord>, rel: string): (r: Option<string>)
    ensures r.Some? <==> record.Some? && rel in record.value.links && record.value.links[rel].ReferenceLink?
    ensures r.Some? ==> r.value == record.value.links[rel].href
  {
    if record.Some? && rel in record.value.links then
      match record.value.links[rel]
      case ReferenceLink(href) => Some(href)
      case OtherLink => None
    else None
  }

  /**
   * `record?.Fields["System.Title"]?.ToString()`: null for a null record or a null field,
   * and a thrown `KeyNotFoundException` when the record has no title field at all.
   */
  function TitleOf(record: Option<TfsRecord>): (r: Result<NString, string>)
    ensures r.Failure? <==> record.Some? && TitleKey !in record.value.fields
    ensures r.Success? && r.value.Some? ==> record.Some? && record.value.fields[TitleKey] == r.value
    ensures record.None? ==> r == Success(None)
  {
    if record.None? then Success(None)
    else if TitleKey in record.value.fields then Success(record.value.fields[TitleKey])
    else Failure(KeyNotFoundMessage)
  }

  /**
   * The address a lookup leads to: an exception from the lookup passes through; a null
   * record or a missing or non-reference link throws `message` instead of giving an address.
   */
  function LinkOrThrow(lookup: Result<Option<TfsRecord>, string>, rel: string, message: string): (r: Result<string, string>)
    ensures lookup.Failure? ==> r == Failure(lookup.error)
    ensures lookup.Success? ==> (r.Success? <==> LinkHref(lookup.value, rel).Some?)
    ensures lookup.Success? && r.Success? ==> Some(r.value) == LinkHref(lookup.value, rel)
    ensures lookup.Success? && r.Failure? ==> r.error == message
  {
    match lookup
    case Failure(e) => Failure(e)
    case Success(record) =>
      match LinkHref(record, rel)
      case Some(href) => Success(href)
      case None => Failure(message)
  }

  /** The title a lookup leads to; an exception from the lookup passes through. */
  function TitleOrThrow(lookup: Result<Option<TfsRecord>, string>): (r: Result<NString, string>)
    ensures lookup.Failure? ==> r == Failure(lookup.error)
    ensures lookup.Success? ==> r == TitleOf(lookup.value)
  {
    match lookup
    case Failure(e) => Failure(e)
    case Success(record) => TitleOf(record)
  }
}
