/**
 * The storage form of a policy and its conversion back into the model: an ordered chain of
 * checks, the first failing one deciding the error message.
 */
module JsonPolicy {
  import opened Wrappers
  import opened Contacts
  import opened Policies

  /** `String.format(MISSING_FIELD_MESSAGE_FORMAT, className)`. */
  function MissingFieldMessage(className: string): string
  {
    "Policy's " + className + " field is missing!"
  }

  /**
   * The field types' own conversions and validators. The adapted payment structure and
   * commission are kept as strings; `parseDate` is `LocalDate.parse` with the pattern
   * `yyyy-MM-dd`, its error the message of the parse exception.
   */
  datatype Codecs = Codecs(
    isValidTitle: string -> bool,
    titleConstraints: string,
    priceToJson: Price -> string,
    priceFromJson: string -> Result<Price, string>,
    dateToJson: ExpiryDate -> string,
    parseDate: string -> Result<Date, string>,
    isValidExpiryDate: Date -> bool,
    expiryConstraints: string,
    commissionToJson: Commission -> string,
    commissionFromJson: (string, Price) -> Result<Commission, string>)

  /** A policy as stored; `None` is a field missing from the file. */
  datatype JsonAdaptedPolicy = JsonAdaptedPolicy(
    title: Option<string>,
    paymentStructure: Option<string>,
    coverageExpiryDate: Option<string>,
    commission: Option<string>,
    owner: Option<Contact>)

  /** `JsonAdaptedPolicy(Policy)`: every field present; the tags are not stored. */
  function FromPolicy(p: Policy, c: Codecs): (j: JsonAdaptedPolicy)
    ensures j.title == Some(p.title.value) && j.owner == Some(p.owner)
    ensures j.paymentStructure.Some? && j.coverageExpiryDate.Some? && j.commission.Some?
  {
    JsonAdaptedPolicy(Some(p.title.value), Some(c.priceToJson(p.price)), Some(c.dateToJson(p.expiryDate)),
                      Some(c.commissionToJson(p.commission)), Some(p.owner))
  }

  /**
   * `toModelType(policyOwner)`; `None` for the owner is null. The date is parsed a second time
   * after the checks, with the same result, so the model parses it once.
   */
  function ToModelType(j: JsonAdaptedPolicy, policyOwner: Option<Contact>, c: Codecs): (r: Result<Policy, string>)
    ensures r.Ok? ==> policyOwner.Some? && r.value.owner == policyOwner.value
    ensures r.Ok? ==> j.title.Some? && r.value.title == Title(j.title.value) && r.value.tags == {}
    ensures r.Ok? ==>
      && j.paymentStructure.Some? && j.commission.Some?
      && c.priceFromJson(j.paymentStructure.value) == Ok(r.value.price)
      && c.commissionFromJson(j.commission.value, r.value.price) == Ok(r.value.commission)
  {
    if j.title.None? then Err(MissingFieldMessage("Title"))
    else if !c.isValidTitle(j.title.value) then Err(c.titleConstraints)
    else if j.paymentStructure.None? then Err(MissingFieldMessage("PaymentStructure"))
    else match c.priceFromJson(j.paymentStructure.value)
      case Err(e) => Err(e)
      case Ok(price) =>
        if j.coverageExpiryDate.None? then Err(MissingFieldMessage("CoverageExpiryDate"))
        else match c.parseDate(j.coverageExpiryDate.value)
          case Err(e) => Err(e)
          case Ok(date) =>
            if !c.isValidExpiryDate(date) then Err(c.expiryConstraints)
            else if j.commission.None? then Err(MissingFieldMessage("Commission"))
            else match c.commissionFromJson(j.commission.value, price)
              case Err(e) => Err(e)
              case Ok(commission) =>
                if policyOwner.None? then Err(MissingFieldMessage("Person"))
                else Ok(Policy(Title(j.title.value), price, ExpiryDate(date), commission, policyOwner.value, {}))
  }

  // ------------------------------------------------- the checks, one by one

  /** The checks `toModelType` makes, in the order it makes them. */
  datatype Check =
    | TitleMissing | TitleInvalid
    | PaymentStructureMissing | PaymentStructureInvalid
    | ExpiryMissing | ExpiryUnparseable | ExpiryInvalid
    | CommissionMissing | CommissionInvalid
    | OwnerMissing

  /** The check made after `k`, if any. */
  function Successor(k: Check): (r: Option<Check>)
    ensures r.Some? ==> Position(r.value) == Position(k) + 1
    ensures r.None? <==> k == OwnerMissing
  {
    match k
    case TitleMissing => Some(TitleInvalid)
    case TitleInvalid => Some(PaymentStructureMissing)
    case PaymentStructureMissing => Some(PaymentStructureInvalid)
    case PaymentStructureInvalid => Some(ExpiryMissing)
    case ExpiryMissing => Some(ExpiryUnparseable)
    case ExpiryUnparseable => Some(ExpiryInvalid)
    case ExpiryInvalid => Some(CommissionMissing)
    case CommissionMissing => Some(CommissionInvalid)
    case CommissionInvalid => Some(OwnerMissing)
    case OwnerMissing => None
  }

  /** How many checks come before `k`. */
  function Position(k: Check): (n: nat)
    ensures n < 10
  {
    match k
    case TitleMissing => 0
    case TitleInvalid => 1
    case PaymentStructureMissing => 2
    case PaymentStructureInvalid => 3
    case ExpiryMissing => 4
    case ExpiryUnparseable => 5
    case ExpiryInvalid => 6
    case CommissionMissing => 7
    case CommissionInvalid => 8
    case OwnerMissing => 9
  }

  /** Whether one check fails, judged on its own fields (and on the price the commission needs). */
  predicate Fails(k: Check, j: JsonAdaptedPolicy, policyOwner: Option<Contact>, c: Codecs)
  {
    match k
    case TitleMissing => j.title.None?
    case TitleInvalid => j.title.Some? && !c.isValidTitle(j.title.value)
    case PaymentStructureMissing => j.paymentStructure.None?
    case PaymentStructureInvalid => j.paymentStructure.Some? && c.priceFromJson(j.paymentStructure.value).Err?
    case ExpiryMissing => j.coverageExpiryDate.None?
    case ExpiryUnparseable => j.coverageExpiryDate.Some? && c.parseDate(j.coverageExpiryDate.value).Err?
    case ExpiryInvalid =>
      j.coverageExpiryDate.Some? && c.parseDate(j.coverageExpiryDate.value).Ok?
      && !c.isValidExpiryDate(c.parseDate(j.coverageExpiryDate.value).value)
    case CommissionMissing => j.commission.None?
    case CommissionInvalid =>
      j.commission.Some? && j.paymentStructure.Some? && c.priceFromJson(j.paymentStructure.value).Ok?
      && c.commissionFromJson(j.commission.value, c.priceFromJson(j.paymentStructure.value).value).Err?
    case OwnerMissing => policyOwner.None?
  }

  /** The error a failing check raises. */
  function Message(k: Check, j: JsonAdaptedPolicy, c: Codecs): string
  {
    match k
    case TitleMissing => MissingFieldMessage("Title")
    case TitleInvalid => c.titleConstraints
    case PaymentStructureMissing => MissingFieldMessage("PaymentStructure")
    case PaymentStructureInvalid =>
      if j.paymentStructure.Some? && c.priceFromJson(j.paymentStructure.value).Err?
      then c.priceFromJson(j.paymentStructure.value).error else ""
    case ExpiryMissing => MissingFieldMessage("CoverageExpiryDate")
    case ExpiryUnparseable =>
      if j.coverageExpiryDate.Some? && c.parseDate(j.coverageExpiryDate.value).Err?
      then c.parseDate(j.coverageExpiryDate.value).error else ""
    case ExpiryInvalid => c.expiryConstraints
    case CommissionMissing => MissingFieldMessage("Commission")
    case CommissionInvalid =>
      if j.commission.Some? && j.paymentStructure.Some? && c.priceFromJson(j.paymentStructure.value).Ok?
         && c.commissionFromJson(j.commission.value, c.priceFromJson(j.paymentStructure.value).value).Err?
      then c.commissionFromJson(j.commission.value, c.priceFromJson(j.paymentStructure.value).value).error
      else ""
    case OwnerMissing => MissingFieldMessage("Person")
  }

  /** The first check from `k` on that fails, if any. */
  function FirstFailure(k: Check, j: JsonAdaptedPolicy, policyOwner: Option<Contact>, c: Codecs): Option<Check>
    decreases 10 - Position(k)
  {
    if Fails(k, j, policyOwner, c) then Some(k)
    else match Successor(k)
      case None => None
      case Some(next) => FirstFailure(next, j, policyOwner, c)
  }

  /**
   * `FirstFailure` from `k` finds a failing check at or after `k` with no failing check between
   * them, and finds none exactly when no check from `k` on fails.
   */
  lemma {:induction false} FirstFailureMeaning(k: Check, j: JsonAdaptedPolicy, policyOwner: Option<Contact>, c: Codecs)
    ensures var r := FirstFailure(k, j, policyOwner, c);
      && (r.Some? ==> Fails(r.value, j, policyOwner, c) && Position(k) <= Position(r.value)
                      && forall h :: Position(k) <= Position(h) < Position(r.value) ==> !Fails(h, j, policyOwner, c))
      && (r.None? <==> forall h :: Position(k) <= Position(h) ==> !Fails(h, j, policyOwner, c))
    decreases 10 - Position(k)
  {
    if !Fails(k, j, policyOwner, c) {
      match Successor(k)
      case None =>
        forall h | Position(k) <= Position(h) ensures !Fails(h, j, policyOwner, c) {
          PositionInjective(h, k);
        }
      case Some(next) =>
        FirstFailureMeaning(next, j, policyOwner, c);
        forall h | Position(k) == Position(h) ensures h == k { PositionInjective(h, k); }
    }
  }

  lemma PositionInjective(a: Check, b: Check)
    ensures Position(a) == Position(b) ==> a == b
    ensures Position(b) == 9 ==> b == OwnerMissing
  {
  }

  /**
   * The chain of checks: the conversion fails with the message of the first failing check, and
   * succeeds exactly when no check fails.
   */
  lemma ToModelTypeChecksInOrder(j: JsonAdaptedPolicy, policyOwner: Option<Contact>, c: Codecs)
    ensures var first := FirstFailure(TitleMissing, j, policyOwner, c);
      && (first.Some? ==> ToModelType(j, policyOwner, c) == Err(Message(first.value, j, c)))
      && (first.None? <==> ToModelType(j, policyOwner, c).Ok?)
  {
  }

  // ------------------------------------------------------------- round trip

  /** The field types' conversions read back what they wrote, and the stored policy is valid. */
  predicate CodecsRoundTrip(p: Policy, c: Codecs)
  {
    && c.isValidTitle(p.title.value)
    && c.priceFromJson(c.priceToJson(p.price)) == Ok(p.price)
    && c.parseDate(c.dateToJson(p.expiryDate)) == Ok(p.expiryDate.date)
    && c.isValidExpiryDate(p.expiryDate.date)
    && c.commissionFromJson(c.commissionToJson(p.commission), p.price) == Ok(p.commission)
  }

  /**
   * Storing a valid policy and reading it back with its owner gives the policy without its
   * tags, which the storage form does not keep: equal to the original exactly when it had none.
   */
  lemma RoundTrip(p: Policy, c: Codecs)
    requires CodecsRoundTrip(p, c)
    ensures ToModelType(FromPolicy(p, c), Some(p.owner), c) == Ok(p.(tags := {}))
    ensures Equals(p, Some(ToModelType(FromPolicy(p, c), Some(p.owner), c).value)) <==> p.tags == {}
  {
  }

  /** The owner of the result is the argument, not the owner stored with the policy. */
  lemma OwnerIsTheArgument(j: JsonAdaptedPolicy, a: Contact, b: Contact, c: Codecs)
    requires ToModelType(j, Some(a), c).Ok?
    ensures ToModelType(j, Some(b), c) == Ok(ToModelType(j, Some(a), c).value.(owner := b))
  {
  }
}
