/**
 Selecting the relationships incident to an anchor node (stix/src/relationship.rs:37-70). A
 `Filter` names a direction, a relationship type and the type tag the peer must carry; the peer
 is the endpoint opposite the anchor: the target of an outgoing edge, the source of an incoming
 one. The anchor itself is not stored: it is implied by which edges the caller tests.

 The source's match compares only the peer's object type with the filter's tag and does not
 look at the relationship type; `Matches` keeps that behaviour, and `Intended` is the stricter
 predicate that also compares the types.
 */
module Filters {
  import opened Wrappers
  import opened RelationshipTypes
  import opened Relationships

  datatype Direction = Outgoing | Incoming

  datatype Filter = Filter(direction: Direction, relationshipType: RelationshipType, peerType: string)

  /** The endpoint opposite the anchor: an outgoing edge leaves the anchor, so the peer is its
      target; an incoming edge arrives at the anchor, so the peer is its source. */
  function Peer(r: Relationship, d: Direction): (p: Id)
    ensures d == Outgoing ==> p == r.targetRef
    ensures d == Incoming ==> p == r.sourceRef
  {
    match d
    case Outgoing => r.targetRef
    case Incoming => r.sourceRef
  }

  /** Whether `r` satisfies `f`, given how identifiers report their object type. Only the
      peer's type is compared, exactly and case-sensitively: the target's for an outgoing
      filter, the source's for an incoming one. */
  predicate Matches(r: Relationship, f: Filter, objectType: Id -> string)
    ensures f.direction == Outgoing ==>
              (Matches(r, f, objectType) <==> objectType(r.targetRef) == f.peerType)
    ensures f.direction == Incoming ==>
              (Matches(r, f, objectType) <==> objectType(r.sourceRef) == f.peerType)
  {
    objectType(Peer(r, f.direction)) == f.peerType
  }

  /** The stricter predicate: the literal match and, in addition, equal relationship types. */
  predicate Intended(r: Relationship, f: Filter, objectType: Id -> string) {
    Matches(r, f, objectType) && r.relationshipType == f.relationshipType
  }

  /** Filter for edges leaving the anchor towards a peer whose kind has the tag `peerTag`. */
  function OutgoingFilter(rt: RelationshipType, peerTag: string): (f: Filter)
    ensures f.direction == Outgoing && f.relationshipType == rt && f.peerType == peerTag
    ensures forall r :: Peer(r, f.direction) == r.targetRef
  {
    Filter(Outgoing, rt, peerTag)
  }

  /** Filter for edges arriving at the anchor from a peer whose kind has the tag `peerTag`. */
  function IncomingFilter(rt: RelationshipType, peerTag: string): (f: Filter)
    ensures f.direction == Incoming && f.relationshipType == rt && f.peerType == peerTag
    ensures forall r :: Peer(r, f.direction) == r.sourceRef
  {
    Filter(Incoming, rt, peerTag)
  }

  /** The two constructors produce every filter there is, and they differ in the direction
      alone. */
  lemma Constructors(f: Filter)
    ensures f.direction == Outgoing ==> f == OutgoingFilter(f.relationshipType, f.peerType)
    ensures f.direction == Incoming ==> f == IncomingFilter(f.relationshipType, f.peerType)
    ensures IncomingFilter(f.relationshipType, f.peerType)
            == OutgoingFilter(f.relationshipType, f.peerType).(direction := Incoming)
  {
  }

  /** An outgoing filter looks at the target only: it matches exactly when the target's type
      is the filter's tag, whatever the source is. */
  lemma MatchesOutgoing(r: Relationship, f: Filter, objectType: Id -> string, otherSource: Id)
    requires f.direction == Outgoing
    ensures Matches(r, f, objectType) <==> objectType(r.targetRef) == f.peerType
    ensures Matches(r.(sourceRef := otherSource), f, objectType) == Matches(r, f, objectType)
  {
  }

  /** An incoming filter looks at the source only: it matches exactly when the source's type
      is the filter's tag, whatever the target is. */
  lemma MatchesIncoming(r: Relationship, f: Filter, objectType: Id -> string, otherTarget: Id)
    requires f.direction == Incoming
    ensures Matches(r, f, objectType) <==> objectType(r.sourceRef) == f.peerType
    ensures Matches(r.(targetRef := otherTarget), f, objectType) == Matches(r, f, objectType)
  {
  }

  /** The match never depends on a relationship type, neither the edge's nor the filter's,
      nor on the edge's metadata. */
  lemma MatchesIgnoresRelationshipType(r: Relationship, f: Filter, objectType: Id -> string,
                                       edgeType: RelationshipType, filterType: RelationshipType,
                                       base: CommonProperties)
    ensures Matches(r.(relationshipType := edgeType, base := base),
                    f.(relationshipType := filterType), objectType)
            == Matches(r, f, objectType)
  {
  }

  /** The edge reversed: source and target swapped. */
  function Reverse(r: Relationship): Relationship {
    r.(sourceRef := r.targetRef, targetRef := r.sourceRef)
  }

  function Flip(d: Direction): Direction {
    match d
    case Outgoing => Incoming
    case Incoming => Outgoing
  }

  /** The two directions mirror each other: an incoming match on an edge is the outgoing match
      on the reversed edge, and conversely. */
  lemma DirectionMirror(r: Relationship, f: Filter, objectType: Id -> string)
    ensures Peer(Reverse(r), Flip(f.direction)) == Peer(r, f.direction)
    ensures Matches(Reverse(r), f.(direction := Flip(f.direction)), objectType)
            == Matches(r, f, objectType)
    ensures Intended(Reverse(r), f.(direction := Flip(f.direction)), objectType)
            == Intended(r, f, objectType)
  {
  }

  /** Two edges that differ only in the peer, one of the filter's type and one not, are told
      apart. */
  lemma PeerTypeDiscriminates(r: Relationship, f: Filter, objectType: Id -> string, other: Id)
    requires objectType(Peer(r, f.direction)) == f.peerType
    requires objectType(other) != f.peerType
    ensures Matches(r, f, objectType)
    ensures f.direction == Outgoing ==> !Matches(r.(targetRef := other), f, objectType)
    ensures f.direction == Incoming ==> !Matches(r.(sourceRef := other), f, objectType)
  {
  }

  /** The stricter predicate only ever accepts what the literal one accepts. */
  lemma IntendedImpliesMatches(r: Relationship, f: Filter, objectType: Id -> string)
    ensures Intended(r, f, objectType) ==> Matches(r, f, objectType)
  {
  }

  /** When the edge carries the filter's relationship type the two predicates agree. */
  lemma IntendedAgreesOnType(r: Relationship, f: Filter, objectType: Id -> string)
    requires r.relationshipType == f.relationshipType
    ensures Intended(r, f, objectType) <==> Matches(r, f, objectType)
  {
  }

  /** The two predicates differ exactly on the edges the literal match accepts that carry
      another relationship type than the filter's. */
  lemma MatchesWithoutIntended(r: Relationship, f: Filter, objectType: Id -> string)
    ensures Matches(r, f, objectType) && !Intended(r, f, objectType)
            <==> Matches(r, f, objectType) && r.relationshipType != f.relationshipType
  {
  }

  /** One such edge: a `mitigates` edge to a course of action is accepted by an outgoing `uses`
      filter for courses of action, which the stricter predicate rejects. */
  lemma TypeMismatchStillMatches(base: CommonProperties, source: Id, target: Id,
                                 objectType: Id -> string)
    requires objectType(target) == "course-of-action"
    ensures var r := Relationship(base, source, target, Mitigates);
            var f := OutgoingFilter(Uses, "course-of-action");
            Matches(r, f, objectType) && !Intended(r, f, objectType)
  {
  }

  /** End to end: the text `mitigates` parses, and a `mitigates` edge whose target is a course
      of action and whose source is not is selected by the outgoing filter for courses of action
      and not by the incoming one. */
  lemma MitigatesScenario(base: CommonProperties, source: Id, target: Id,
                          objectType: Id -> string)
    requires objectType(target) == "course-of-action"
    requires objectType(source) != "course-of-action"
    ensures Parse("mitigates") == Ok(Mitigates)
    ensures var r := Relationship(base, source, target, Parse("mitigates").value);
            && Matches(r, OutgoingFilter(Mitigates, "course-of-action"), objectType)
            && Intended(r, OutgoingFilter(Mitigates, "course-of-action"), objectType)
            && !Matches(r, IncomingFilter(Mitigates, "course-of-action"), objectType)
  {
    ParseToString(Mitigates);
  }
}
