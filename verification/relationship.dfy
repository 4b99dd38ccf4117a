/**
 The relationship object of STIX 2.1 (stix/src/relationship.rs:18-35):
 an edge from `sourceRef` to `targetRef` classified by a `RelationshipType`, carrying the
 metadata every STIX object has. The record is taken as already deserialized.
 */
module Relationships {
  import opened KebabCase
  import opened RelationshipTypes

  /** A STIX identifier. Its inner form, and how the object type is read from it, belong to
      another part of the program; operations that need the type take it as a parameter. */
  type Id(==, !new)

  /** The properties common to every STIX object (id, timestamps, spec version, ...), held
      opaquely. */
  type CommonProperties(==, !new)

  datatype Relationship = Relationship(
    base: CommonProperties,
    sourceRef: Id,
    targetRef: Id,
    relationshipType: RelationshipType)

  /** The type tag a relationship object carries, as a typed object of the graph. */
  const TYPE: string := "relationship"

  /** The shape STIX 2.1 requires of an object type name: 3 to 250 characters from the
      lower-case letters, digits and hyphen, and never two hyphens in a row (the pair separates
      the type from the UUID in an identifier). */
  predicate IsTypeName(s: string) {
    && 3 <= |s| <= 250
    && (forall i :: 0 <= i < |s| ==> IsStixChar(s[i]))
    && (forall i :: 0 <= i < |s| - 1 ==> !(s[i] == '-' && s[i + 1] == '-'))
  }

  /** The relationship tag is a well-formed STIX type name, and no relationship type spells it,
      so a relationship's own tag and its classification cannot be confused. */
  lemma TypeTag()
    ensures IsTypeName(TYPE)
    ensures forall t :: ToString(t) != TYPE
  {
  }

  /** The metadata view of a relationship. */
  function AsRef(r: Relationship): (b: CommonProperties)
    ensures Relationship(b, r.sourceRef, r.targetRef, r.relationshipType) == r
  {
    r.base
  }
}
