/**
 * The parser of the add-contact command: the four required prefixes must be present and the
 * preamble empty; then each field is parsed from its prefix's last value, the tags from all
 * `t/` values.
 */
module AddContactParser {
  import opened Wrappers
  import opened Contacts
  import opened Parsing

  /** The prefixes the command requires, in the order they are checked. */
  const REQUIRED: seq<Prefix> := [NamePrefix, AddressPrefix, PhonePrefix, EmailPrefix]

  /** `arePrefixesPresent`: every listed prefix has a value. */
  function ArePrefixesPresent(m: ArgMultimap, prefixes: seq<Prefix>): (b: bool)
    ensures b <==> forall k :: 0 <= k < |prefixes| ==> GetValue(m, prefixes[k]).Some?
  {
    if prefixes == [] then true
    else GetValue(m, prefixes[0]).Some? && ArePrefixesPresent(m, prefixes[1..])
  }

  /**
   * The arguments the command accepts: every required prefix has a value and the preamble is
   * empty. Otherwise the parse raises the invalid-format error.
   */
  function WellFormed(m: ArgMultimap): (b: bool)
    ensures b <==>
      && GetValue(m, NamePrefix).Some? && GetValue(m, AddressPrefix).Some?
      && GetValue(m, PhonePrefix).Some? && GetValue(m, EmailPrefix).Some?
      && m.preamble == []
  {
    assert REQUIRED[0] == NamePrefix && REQUIRED[1] == AddressPrefix;
    assert REQUIRED[2] == PhonePrefix && REQUIRED[3] == EmailPrefix;
    ArePrefixesPresent(m, REQUIRED) && m.preamble == []
  }

  /** `AddContactCommandParser.parse`: the contact the command is to add. */
  function Parse(m: ArgMultimap, pu: ParserUtil): (r: Result<Contact, ParseError>)
    ensures r.Ok? ==> WellFormed(m)
    ensures r.Ok? ==>
      && pu.parseName(GetValue(m, NamePrefix).value) == Ok(r.value.name)
      && pu.parsePhone(GetValue(m, PhonePrefix).value) == Ok(r.value.phone)
      && pu.parseEmail(GetValue(m, EmailPrefix).value) == Ok(r.value.email)
      && pu.parseAddress(GetValue(m, AddressPrefix).value) == Ok(r.value.address)
      && pu.parseTags(GetAllValues(m, TagPrefix)) == Ok(r.value.tags)
  {
    if !WellFormed(m) then Err(InvalidCommandFormat(AddContactUsage))
    else
      match pu.parseName(GetValue(m, NamePrefix).value)
      case Err(e) => Err(Invalid(e))
      case Ok(name) =>
        match pu.parsePhone(GetValue(m, PhonePrefix).value)
        case Err(e) => Err(Invalid(e))
        case Ok(phone) =>
          match pu.parseEmail(GetValue(m, EmailPrefix).value)
          case Err(e) => Err(Invalid(e))
          case Ok(email) =>
            match pu.parseAddress(GetValue(m, AddressPrefix).value)
            case Err(e) => Err(Invalid(e))
            case Ok(address) =>
              match pu.parseTags(GetAllValues(m, TagPrefix))
              case Err(e) => Err(Invalid(e))
              case Ok(tags) => Ok(Contact(name, phone, email, address, tags))
  }

  /**
   * The invalid-format error is raised exactly for malformed arguments; every other error is
   * the message of the field parser that rejected its value.
   */
  lemma FormatErrorExactly(m: ArgMultimap, pu: ParserUtil)
    ensures Parse(m, pu) == Err(InvalidCommandFormat(AddContactUsage)) <==> !WellFormed(m)
    ensures Parse(m, pu).Err? && WellFormed(m) ==> Parse(m, pu).error.Invalid?
  {
  }

  /** Of a field prefix given several times only the last value is parsed; earlier ones are ignored. */
  lemma OnlyTheLastValueCounts(m: ArgMultimap, pu: ParserUtil, p: Prefix, earlier: seq<string>)
    requires p != TagPrefix && p in m.values && m.values[p] != []
    ensures Parse(m.(values := m.values[p := earlier + m.values[p]]), pu) == Parse(m, pu)
  {
    var m' := m.(values := m.values[p := earlier + m.values[p]]);
    forall q ensures GetValue(m', q) == GetValue(m, q) {
      if q == p {
        assert GetAllValues(m', p) == earlier + GetAllValues(m, p);
      }
    }
    assert GetAllValues(m', TagPrefix) == GetAllValues(m, TagPrefix);
    assert WellFormed(m') == WellFormed(m);
  }

  /** The parse succeeds exactly when the arguments are well formed and every field parses. */
  lemma ParseSucceeds(m: ArgMultimap, pu: ParserUtil)
    ensures Parse(m, pu).Ok? <==>
      && WellFormed(m)
      && pu.parseName(GetValue(m, NamePrefix).value).Ok?
      && pu.parsePhone(GetValue(m, PhonePrefix).value).Ok?
      && pu.parseEmail(GetValue(m, EmailPrefix).value).Ok?
      && pu.parseAddress(GetValue(m, AddressPrefix).value).Ok?
      && pu.parseTags(GetAllValues(m, TagPrefix)).Ok?
  {
  }
}
