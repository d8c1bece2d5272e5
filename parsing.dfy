/**
 * What the command parsers share: the tokenized arguments (the text before the first prefix
 * and, for each prefix, the values it was given in order of appearance), the parse errors and
 * the field parsers that turn one argument value into a field of the model.
 */
module Parsing {
  import opened Wrappers
  import opened Contacts

  /** The prefixes `n/`, `p/`, `e/`, `a/` and `t/`. */
  datatype Prefix = NamePrefix | PhonePrefix | EmailPrefix | AddressPrefix | TagPrefix

  /** An argument multimap: a prefix absent from `values` was not given at all. */
  datatype ArgMultimap = ArgMultimap(preamble: string, values: map<Prefix, seq<string>>)

  /** `getAllValues`: every value of the prefix, possibly none. */
  function GetAllValues(m: ArgMultimap, p: Prefix): seq<string>
  {
    if p in m.values then m.values[p] else []
  }

  /** `getValue`: the last value of the prefix, if it was given one. */
  function GetValue(m: ArgMultimap, p: Prefix): (r: Option<string>)
    ensures r.Some? <==> GetAllValues(m, p) != []
    ensures r.Some? ==> r.value == GetAllValues(m, p)[|GetAllValues(m, p)| - 1]
  {
    var vs := GetAllValues(m, p);
    if vs == [] then None else Some(vs[|vs| - 1])
  }

  /** The commands whose usage message an invalid-format error quotes. */
  datatype Usage = FindClientUsage | AddContactUsage | EditContactUsage

  /** A `ParseException`. */
  datatype ParseError =
    /** `String.format(MESSAGE_INVALID_COMMAND_FORMAT, usage)`. */
    | InvalidCommandFormat(usage: Usage)
    /** `EditContactCommand.MESSAGE_NOT_EDITED`. */
    | NotEdited
    /** The message of a field parser's exception, passed on unchanged. */
    | Invalid(message: string)

  /** `ParserUtil`: each parser gives the field or its exception's message. */
  datatype ParserUtil = ParserUtil(
    parseIndex: string -> Result<nat, string>,
    parseName: string -> Result<string, string>,
    parsePhone: string -> Result<string, string>,
    parseEmail: string -> Result<string, string>,
    parseAddress: string -> Result<string, string>,
    parseTags: seq<string> -> Result<set<Tag>, string>)
}
