/**
 * The parser of the edit-contact command: the preamble is the index of the contact to edit,
 * each field prefix given sets that field of the edit descriptor, and the tag values either
 * leave the tags alone, clear them or replace them.
 */
module EditContactParser {
  import opened Wrappers
  import opened Contacts
  import opened Parsing

  /** `EditContactDescriptor`: a field left `None` is not edited. */
  datatype EditContactDescriptor = EditContactDescriptor(
    name: Option<string>,
    phone: Option<string>,
    email: Option<string>,
    address: Option<string>,
    tags: Option<set<Tag>>)

  /** A new descriptor edits nothing. */
  const NO_EDITS := EditContactDescriptor(None, None, None, None, None)

  /** `isAnyFieldEdited`: some field is set. */
  predicate IsAnyFieldEdited(d: EditContactDescriptor)
  {
    d.name.Some? || d.phone.Some? || d.email.Some? || d.address.Some? || d.tags.Some?
  }

  /** The command: the one-based index of the contact and the edits to make to it. */
  datatype EditContactCommand = EditContactCommand(index: nat, descriptor: EditContactDescriptor)

  /**
   * `parseTagsForEdit`: no tag value leaves the tags unedited, a single empty value clears
   * them (the tag parser is given no values), any other values are parsed as the new tags.
   */
  function ParseTagsForEdit(tags: seq<string>, pu: ParserUtil): (r: Result<Option<set<Tag>>, ParseError>)
    ensures r == Ok(None) <==> tags == []
    ensures r.Err? ==> r.error.Invalid?
  {
    if tags == [] then Ok(None)
    else
      var tagSet := if |tags| == 1 && "" in tags then [] else tags;
      match pu.parseTags(tagSet)
      case Err(e) => Err(Invalid(e))
      case Ok(parsed) => Ok(Some(parsed))
  }

  /** A lone empty tag value clears the tags, given that no values parse to no tags. */
  lemma LoneEmptyTagClears(pu: ParserUtil)
    requires pu.parseTags([]) == Ok({})
    ensures ParseTagsForEdit([""], pu) == Ok(Some({}))
  {
  }

  /** Any other tag values are parsed as they are. */
  lemma OtherTagsParsed(tags: seq<string>, pu: ParserUtil)
    requires tags != [] && tags != [""]
    ensures pu.parseTags(tags).Ok? ==> ParseTagsForEdit(tags, pu) == Ok(Some(pu.parseTags(tags).value))
    ensures pu.parseTags(tags).Err? ==> ParseTagsForEdit(tags, pu) == Err(Invalid(pu.parseTags(tags).error))
  {
  }

  /** A field is set exactly when its prefix has a value, to that value as parsed. */
  predicate SetFrom(field: Option<string>, m: ArgMultimap, p: Prefix, parse: string -> Result<string, string>)
  {
    match GetValue(m, p)
    case None => field == None
    case Some(v) => field.Some? && parse(v) == Ok(field.value)
  }

  /** Each given field value parses. */
  predicate FieldsParse(m: ArgMultimap, pu: ParserUtil)
  {
    && (GetValue(m, NamePrefix).Some? ==> pu.parseName(GetValue(m, NamePrefix).value).Ok?)
    && (GetValue(m, PhonePrefix).Some? ==> pu.parsePhone(GetValue(m, PhonePrefix).value).Ok?)
    && (GetValue(m, EmailPrefix).Some? ==> pu.parseEmail(GetValue(m, EmailPrefix).value).Ok?)
    && (GetValue(m, AddressPrefix).Some? ==> pu.parseAddress(GetValue(m, AddressPrefix).value).Ok?)
    && ParseTagsForEdit(GetAllValues(m, TagPrefix), pu).Ok?
  }

  /**
   * The error of the first given value that does not parse, trying name, phone, email, address
   * and then the tags; none exactly when every given value parses.
   */
  function FirstFieldError(m: ArgMultimap, pu: ParserUtil): (e: Option<ParseError>)
    ensures e.None? <==> FieldsParse(m, pu)
    ensures e.Some? ==> e.value.Invalid?
  {
    var name, phone := GetValue(m, NamePrefix), GetValue(m, PhonePrefix);
    var email, address := GetValue(m, EmailPrefix), GetValue(m, AddressPrefix);
    if name.Some? && pu.parseName(name.value).Err? then Some(Invalid(pu.parseName(name.value).error))
    else if phone.Some? && pu.parsePhone(phone.value).Err? then Some(Invalid(pu.parsePhone(phone.value).error))
    else if email.Some? && pu.parseEmail(email.value).Err? then Some(Invalid(pu.parseEmail(email.value).error))
    else if address.Some? && pu.parseAddress(address.value).Err? then Some(Invalid(pu.parseAddress(address.value).error))
    else match ParseTagsForEdit(GetAllValues(m, TagPrefix), pu)
      case Err(err) => Some(err)
      case Ok(_) => None
  }

  /** Some field prefix was given a value. */
  predicate AnyFieldGiven(m: ArgMultimap)
  {
    || GetValue(m, NamePrefix).Some? || GetValue(m, PhonePrefix).Some? || GetValue(m, EmailPrefix).Some?
    || GetValue(m, AddressPrefix).Some? || GetAllValues(m, TagPrefix) != []
  }

  /**
   * `EditContactCommandParser.parse`, filling the descriptor one field at a time. An index
   * that does not parse is an invalid-format error; otherwise the first given value that does
   * not parse decides the error, its parser's message; no field given is the not-edited error;
   * otherwise the command holds the index and exactly the fields given, as parsed.
   */
  method Parse(m: ArgMultimap, pu: ParserUtil) returns (r: Result<EditContactCommand, ParseError>)
    ensures r == Err(InvalidCommandFormat(EditContactUsage)) <==> pu.parseIndex(m.preamble).Err?
    ensures (r.Err? && r.error.Invalid?) <==> pu.parseIndex(m.preamble).Ok? && !FieldsParse(m, pu)
    ensures pu.parseIndex(m.preamble).Ok? && !FieldsParse(m, pu) ==> r == Err(FirstFieldError(m, pu).value)
    ensures r == Err(NotEdited) <==> pu.parseIndex(m.preamble).Ok? && FieldsParse(m, pu) && !AnyFieldGiven(m)
    ensures r.Ok? <==> pu.parseIndex(m.preamble).Ok? && FieldsParse(m, pu) && AnyFieldGiven(m)
    ensures r.Ok? ==>
      && pu.parseIndex(m.preamble) == Ok(r.value.index)
      && SetFrom(r.value.descriptor.name, m, NamePrefix, pu.parseName)
      && SetFrom(r.value.descriptor.phone, m, PhonePrefix, pu.parsePhone)
      && SetFrom(r.value.descriptor.email, m, EmailPrefix, pu.parseEmail)
      && SetFrom(r.value.descriptor.address, m, AddressPrefix, pu.parseAddress)
      && ParseTagsForEdit(GetAllValues(m, TagPrefix), pu) == Ok(r.value.descriptor.tags)
      && IsAnyFieldEdited(r.value.descriptor)
  {
    var index: nat;
    match pu.parseIndex(m.preamble) {
      case Err(_) => return Err(InvalidCommandFormat(EditContactUsage));
      case Ok(i) => index := i;
    }
    var d := NO_EDITS;
    if GetValue(m, NamePrefix).Some? {
      match pu.parseName(GetValue(m, NamePrefix).value) {
        case Err(e) => return Err(Invalid(e));
        case Ok(v) => d := d.(name := Some(v));
      }
    }
    if GetValue(m, PhonePrefix).Some? {
      match pu.parsePhone(GetValue(m, PhonePrefix).value) {
        case Err(e) => return Err(Invalid(e));
        case Ok(v) => d := d.(phone := Some(v));
      }
    }
    if GetValue(m, EmailPrefix).Some? {
      match pu.parseEmail(GetValue(m, EmailPrefix).value) {
        case Err(e) => return Err(Invalid(e));
        case Ok(v) => d := d.(email := Some(v));
      }
    }
    if GetValue(m, AddressPrefix).Some? {
      match pu.parseAddress(GetValue(m, AddressPrefix).value) {
        case Err(e) => return Err(Invalid(e));
        case Ok(v) => d := d.(address := Some(v));
      }
    }
    match ParseTagsForEdit(GetAllValues(m, TagPrefix), pu) {
      case Err(e) => return Err(e);
      case Ok(tags) =>
        if tags.Some? {
          d := d.(tags := tags);
        }
    }
    if !IsAnyFieldEdited(d) {
      return Err(NotEdited);
    }
    return Ok(EditContactCommand(index, d));
  }
}
