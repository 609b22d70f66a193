/** Records exchanged by the number-resource services: VoIP ranges and numbers,
    the legacy (stfc) and mcdu-prefix authority records, the two history records,
    and the responses the services return. */
module Domain {

  /** A nullable reference of the source (`null` is `None`). */
  datatype Option<+T> = None | Some(value: T)

  /** A clock value; every `new Date()` of the source is a parameter of the model. */
  type Date = int

  /** The outcome codes the services use. `OtherCode` stands for the remaining
      constants of the error-code enumeration, which no modelled branch produces. */
  datatype ErrorCode =
    | Success
    | ErrRangeExists
    | ErrRangeIntersect
    | ErrRangeNotExist
    | ErrCnNotExist
    | ErrRangeNotExistMcduPrefix
    | OtherCode(name: string)

  /** Resource states. Only INSTALLED (the donation lookup) and DONATED (the
      donation target) are named by the modelled code; the rest of the domain's
      states are carried by name. */
  datatype ResourceState = Installed | Donated | OtherState(name: string)

  datatype ResourceObjectType = VoipRangeObject | VoipNumberObject

  datatype ResourceType = Voip

  /** A candidate range of a bulk load. */
  datatype NewVoipRange = NewVoipRange(
    cn: int, cnl: int, prefix: int, start: int, end: int,
    state: ResourceState, availabilityDate: Date)

  /** A stored VoIP range; `kind` is the object type set by `setType`. */
  datatype VoipRange = VoipRange(
    id: Option<string>, kind: Option<ResourceObjectType>, state: ResourceState,
    registeredAt: Date, cnl: int, cn: int, prefix: int, start: int, end: int,
    availabilityDate: Date)

  /** A stored VoIP number; `parent` is the id of the range that holds it. */
  datatype VoipNumber = VoipNumber(
    id: Option<string>, cn: int, cnl: int, prefix: int, number: int,
    state: ResourceState, parent: Option<string>)

  /** One record of the VoIP repository, which holds ranges and numbers alike. */
  datatype Resource = RangeResource(range: VoipRange) | NumberResource(number: VoipNumber)
  {
    function Id(): Option<string> {
      match this
      case RangeResource(r) => r.id
      case NumberResource(n) => n.id
    }

    /** The record as the repository stores it under key `k`. */
    function WithId(k: string): (r: Resource)
      ensures r.Id() == Some(k)
      ensures r.RangeResource? == RangeResource?
      ensures Id() == Some(k) ==> r == this
    {
      match this
      case RangeResource(v) => RangeResource(v.(id := Some(k)))
      case NumberResource(v) => NumberResource(v.(id := Some(k)))
    }
  }

  /** The pair of records a state change produces: the new range and the new number. */
  datatype VoipPair = VoipPair(vr: VoipRange, vn: VoipNumber)

  /** An interval of the legacy number table. */
  datatype StfcEntry = StfcEntry(cn: int, prefix: int, start: int, end: int)

  /** The donation history record. */
  datatype PortabilityDonatorHistoric = PortabilityDonatorHistoric(
    cn: int, cnl: int, prefix: int, number: int, phoneNumber: string,
    responsibleUser: string, eotCode: string, note: string, date: Date)

  /** The descriptive fields of an mcdu-prefix record that its history entry copies. */
  datatype AuditedFields = AuditedFields(
    localeName: string, changeProvider: string, tariffAreaCode: string,
    companyCode: string, provider: string, prefixUsageType: string,
    terminalType: string, uf: string)

  /** All descriptive fields of an mcdu-prefix record, copied through unchanged. */
  datatype Descriptive = Descriptive(audited: AuditedFields, other: seq<string>)

  /** The fields an mcdu-prefix record is looked up by. */
  datatype McduKey = McduKey(cn: int, cnl: int, prefix: int, initialMcdu: int, finalMcdu: int)

  /** The payload of one mcdu-prefix load request. */
  datatype McduPrefixRequest = McduPrefixRequest(
    prefix: int, cn: int, initialMcdu: int, finalMcdu: int, cnl: int,
    eot: string, details: Descriptive)
  {
    function Key(): McduKey { McduKey(cn, cnl, prefix, initialMcdu, finalMcdu) }
  }

  /** A stored mcdu-prefix authority record. */
  datatype McduPrefix = McduPrefix(
    id: Option<string>, prefix: int, cn: int, initialMcdu: int, finalMcdu: int,
    cnl: int, eot: string, details: Descriptive,
    updateDate: Option<Date>, registrationDate: Option<Date>,
    finalOperatorDate: Option<Date>, dateRequestOpeningForwarding: Option<Date>)
  {
    function Key(): McduKey { McduKey(cn, cnl, prefix, initialMcdu, finalMcdu) }
  }

  datatype CrudType = Created | Updated

  datatype Operation = McduPrefixLoadOperation

  /** The mcdu-prefix history record: an after snapshot, an optional before
      snapshot, and the fields copied from the after snapshot. */
  datatype McduPrefixHistoric = McduPrefixHistoric(
    prefixId: Option<string>, operation: Operation, crudType: CrudType,
    cn: int, cnl: int, prefix: int, initialMcdu: int, finalMcdu: int, eot: string,
    audited: AuditedFields, user: string,
    actual: McduPrefix, before: Option<McduPrefix>)

  /** The per-item answer of an mcdu-prefix load. */
  datatype McduPrefixResponse = McduPrefixResponse(
    code: ErrorCode, message: ErrorCode, mcduPrefix: McduPrefixRequest)

  datatype Payload =
    | VoipResource(resourceType: ResourceType, number: VoipNumber)
    | McduPrefixResponseList(items: seq<McduPrefixResponse>)

  /** A service response. `message` names the error code whose message text it
      carries; the texts themselves are not part of the model. */
  datatype DataResponse = DataResponse(code: ErrorCode, message: ErrorCode, payload: Option<Payload>)

  /** The exceptions a modelled workflow signals. */
  datatype Failure = UndefinedParentException | ClassCastException

  /** How a single-valued reactive result completes: with a value, with an
      error, or empty. */
  datatype Reply<+T> = Value(value: T) | Failed(error: Failure) | Completed
}
