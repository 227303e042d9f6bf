/** `Entity`: a value that carries nothing but its `EntityId`. */
module EcsEntity {
  import opened EcsTypes

  datatype Entity = Entity(id: EntityId)

  /** `Entity()`: the invalid entity. */
  function DefaultEntity(): (e: Entity)
    ensures !IsValid(e) && Id(e) == InvalidEntityId
  {
    Entity(InvalidEntityId)
  }

  /** `Entity(id)`: keeps the identifier unchanged. */
  function MakeEntity(id: EntityId): (e: Entity)
    ensures Id(e) == id
    ensures IsValid(e) <==> EntityIdToUnderlying(id) != 0
  {
    Entity(id)
  }

  /** `is_valid()`: the identifier is not the reserved invalid one. */
  function IsValid(e: Entity): (valid: bool)
    ensures valid <==> EntityIdToUnderlying(e.id) != 0
  {
    e.id != InvalidEntityId
  }

  /** `id()`: the identifier the entity was built from, which determines it. */
  function Id(e: Entity): (id: EntityId)
    ensures Entity(id) == e
    ensures id == InvalidEntityId <==> !IsValid(e)
  {
    e.id
  }

  /** `operator==`: equal identifiers, which is equality of the values. */
  function EntityEquals(a: Entity, b: Entity): (eq: bool)
    ensures eq <==> Id(a) == Id(b)
    ensures eq <==> a == b
  {
    a.id == b.id
  }

  /** `operator!=`: the negation of `==`. */
  function EntityNotEquals(a: Entity, b: Entity): (ne: bool)
    ensures ne <==> Id(a) != Id(b)
    ensures ne <==> !EntityEquals(a, b)
  {
    !EntityEquals(a, b)
  }

  /** `==` on entities is an equivalence relation. */
  lemma EntityEqualsIsEquivalence(a: Entity, b: Entity, c: Entity)
    ensures EntityEquals(a, a)
    ensures EntityEquals(a, b) ==> EntityEquals(b, a)
    ensures EntityEquals(a, b) && EntityEquals(b, c) ==> EntityEquals(a, c)
  {
  }

  /** An invalid entity is never equal to a valid one; two default entities are equal. */
  lemma InvalidNeverEqualsValid(a: Entity, b: Entity)
    ensures !IsValid(a) && IsValid(b) ==> EntityNotEquals(a, b)
    ensures EntityEquals(DefaultEntity(), DefaultEntity())
  {
  }

  /** The cases the entity test program checks. */
  lemma EntityTestCases()
    ensures !IsValid(DefaultEntity()) && Id(DefaultEntity()) == InvalidEntityId
    ensures IsValid(MakeEntity(MakeEntityId(1))) && Id(MakeEntity(MakeEntityId(1))) == MakeEntityId(1)
    ensures EntityEquals(MakeEntity(MakeEntityId(1)), MakeEntity(MakeEntityId(1)))
    ensures !EntityNotEquals(MakeEntity(MakeEntityId(1)), MakeEntity(MakeEntityId(1)))
    ensures EntityNotEquals(MakeEntity(MakeEntityId(1)), MakeEntity(MakeEntityId(2)))
    ensures !EntityEquals(MakeEntity(MakeEntityId(1)), MakeEntity(MakeEntityId(2)))
    ensures EntityNotEquals(DefaultEntity(), MakeEntity(MakeEntityId(1)))
    ensures EntityEquals(DefaultEntity(), DefaultEntity())
  {
  }
}
