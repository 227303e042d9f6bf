/**
 * Identifier types, enumerations and the `Error` value of the ECS core.
 *
 * Each identifier is a distinct type over an unsigned integer of fixed width
 * (64 bits for entities, 32 bits for the others); the underlying value 0 is
 * reserved for "invalid", but the conversions do no range check.
 */
module EcsTypes {

  newtype uint8 = x: int | 0 <= x < 0x100
  newtype uint32 = x: int | 0 <= x < 0x1_0000_0000
  newtype uint64 = x: int | 0 <= x < 0x1_0000_0000_0000_0000

  datatype EntityId = EntityId(value: uint64)
  datatype ComponentTypeId = ComponentTypeId(value: uint32)
  datatype SystemId = SystemId(value: uint32)
  datatype SubscriptionId = SubscriptionId(value: uint32)

  const InvalidEntityId := EntityId(0)
  const InvalidComponentTypeId := ComponentTypeId(0)
  const InvalidSystemId := SystemId(0)
  const InvalidSubscriptionId := SubscriptionId(0)

  /** `to_underlying`: the raw value; 0 exactly for the reserved invalid identifier. */
  function EntityIdToUnderlying(id: EntityId): (v: uint64)
    ensures v == 0 <==> id == InvalidEntityId
  {
    id.value
  }

  function ComponentTypeIdToUnderlying(id: ComponentTypeId): (v: uint32)
    ensures v == 0 <==> id == InvalidComponentTypeId
  {
    id.value
  }

  function SystemIdToUnderlying(id: SystemId): (v: uint32)
    ensures v == 0 <==> id == InvalidSystemId
  {
    id.value
  }

  function SubscriptionIdToUnderlying(id: SubscriptionId): (v: uint32)
    ensures v == 0 <==> id == InvalidSubscriptionId
  {
    id.value
  }

  function MakeEntityId(value: uint64): (id: EntityId)
    ensures EntityIdToUnderlying(id) == value
    ensures id == InvalidEntityId <==> value == 0
  {
    EntityId(value)
  }

  function MakeComponentTypeId(value: uint32): (id: ComponentTypeId)
    ensures ComponentTypeIdToUnderlying(id) == value
    ensures id == InvalidComponentTypeId <==> value == 0
  {
    ComponentTypeId(value)
  }

  function MakeSystemId(value: uint32): (id: SystemId)
    ensures SystemIdToUnderlying(id) == value
    ensures id == InvalidSystemId <==> value == 0
  {
    SystemId(value)
  }

  function MakeSubscriptionId(value: uint32): (id: SubscriptionId)
    ensures SubscriptionIdToUnderlying(id) == value
    ensures id == InvalidSubscriptionId <==> value == 0
  {
    SubscriptionId(value)
  }

  /** The conversions are mutually inverse in both directions, for every identifier kind. */
  lemma IdRoundTrips(e: EntityId, c: ComponentTypeId, s: SystemId, u: SubscriptionId)
    ensures MakeEntityId(EntityIdToUnderlying(e)) == e
    ensures MakeComponentTypeId(ComponentTypeIdToUnderlying(c)) == c
    ensures MakeSystemId(SystemIdToUnderlying(s)) == s
    ensures MakeSubscriptionId(SubscriptionIdToUnderlying(u)) == u
  {
  }

  /** Every reserved invalid identifier has underlying value 0. */
  lemma InvalidIdsAreZero()
    ensures EntityIdToUnderlying(InvalidEntityId) == 0
    ensures ComponentTypeIdToUnderlying(InvalidComponentTypeId) == 0
    ensures SystemIdToUnderlying(InvalidSystemId) == 0
    ensures SubscriptionIdToUnderlying(InvalidSubscriptionId) == 0
  {
  }

  /** Execution phases of a frame, in order. */
  datatype Phase = Input | Simulate | Resolve | Render

  function PhaseValue(p: Phase): (v: uint8)
    ensures v <= 3
    ensures v == 0 <==> p == Input
    ensures v == 3 <==> p == Render
  {
    match p
    case Input => 0
    case Simulate => 1
    case Resolve => 2
    case Render => 3
  }

  lemma PhaseValueInjective(p: Phase, q: Phase)
    ensures PhaseValue(p) == PhaseValue(q) ==> p == q
  {
  }

  /** Operation results; `Success` is the only non-error. */
  datatype Result =
    | Success
    | InvalidEntity
    | InvalidComponentType
    | InvalidSystemId
    | InvalidSubscriptionId
    | ComponentNotFound
    | SystemNotFound
    | DuplicateComponent
    | DuplicateSystem
    | InternalError

  function ResultValue(r: Result): (v: uint8)
    ensures v <= 9
    ensures v == 0 <==> r == Success
  {
    match r
    case Success => 0
    case InvalidEntity => 1
    case InvalidComponentType => 2
    case InvalidSystemId => 3
    case InvalidSubscriptionId => 4
    case ComponentNotFound => 5
    case SystemNotFound => 6
    case DuplicateComponent => 7
    case DuplicateSystem => 8
    case InternalError => 9
  }

  /** The ten result codes are distinct. */
  lemma ResultValueInjective(r: Result, q: Result)
    ensures ResultValue(r) == ResultValue(q) ==> r == q
  {
  }

  /** An error code with a message. */
  datatype Error = Error(code: Result, message: string)

  /** `Error()`: a success with an empty message. */
  function DefaultError(): (e: Error)
    ensures e.code == Success && e.message == "" && IsSuccess(e)
  {
    Error(Success, "")
  }

  /** `Error(code, message)`: the accessors give back what was passed in. */
  function MakeError(code: Result, message: string): (e: Error)
    ensures e.code == code && e.message == message
    ensures IsSuccess(e) <==> code == Success
  {
    Error(code, message)
  }

  /** `is_success()`: decided by the code alone. */
  function IsSuccess(e: Error): (ok: bool)
    ensures ok <==> ResultValue(e.code) == 0
  {
    e.code == Success
  }

  /** `operator==`: componentwise on code and message. */
  function ErrorEquals(a: Error, b: Error): (eq: bool)
    ensures eq <==> a == b
  {
    a.code == b.code && a.message == b.message
  }

  /** `operator!=`: the negation of `==`. */
  function ErrorNotEquals(a: Error, b: Error): (ne: bool)
    ensures ne <==> a != b
    ensures ne <==> !ErrorEquals(a, b)
  {
    !ErrorEquals(a, b)
  }

  /** `==` on errors is an equivalence relation. */
  lemma ErrorEqualsIsEquivalence(a: Error, b: Error, c: Error)
    ensures ErrorEquals(a, a)
    ensures ErrorEquals(a, b) ==> ErrorEquals(b, a)
    ensures ErrorEquals(a, b) && ErrorEquals(b, c) ==> ErrorEquals(a, c)
  {
  }

  /** A success carrying a message is still a success. */
  lemma SuccessWithMessage()
    ensures IsSuccess(MakeError(Success, "Test error"))
    ensures !IsSuccess(MakeError(InvalidEntity, "Invalid entity"))
    ensures ErrorNotEquals(MakeError(Success, "Test error"), MakeError(InvalidEntity, "Invalid entity"))
  {
  }
}
