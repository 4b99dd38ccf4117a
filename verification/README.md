# STIX relationship edges and their filter

This project is a Dafny model of the relationship component of a STIX 2.1 object graph. It covers:

- `RelationshipType`, the closed set of relationship semantics: `mitigates`, `uses`, `revoked-by` and `subtechnique-of`. The model also covers the kebab-case naming rule that turns the Rust variant names into these spellings, and the parser that reads them back.
- `Relationship`, the STIX relationship object (section 5.1 of STIX 2.1). It is an edge from `source_ref` to `target_ref`, classified by a `RelationshipType` and carrying the common object metadata. It has the type tag `"relationship"` and gives access to that metadata.
- `Filter`, the match condition a graph traversal uses to select edges incident to an anchor node. A filter has a direction, a relationship type and the type tag the peer must carry. It has two constructors (`outgoing`, `incoming`) and a match test against a relationship.

Modules, one file each:

- `KebabCase` (`kebab_case.dfy`): the renaming rule, its inverse on upper-camel-case names, and the proof that it is injective and stays within the STIX alphabet.
- `RelationshipTypes` (`relationship_type.dfy`): the enum, its table `ToString`, and `Parse` with an `UnknownVariant` error.
- `Relationships` (`relationship.dfy`): the record, `TYPE` and `AsRef`.
- `Filters` (`filter.dfy`): `Direction`, `Filter`, `OutgoingFilter`/`IncomingFilter`, and the literal match predicate `Matches`. The module also has the stricter predicate `Intended`, which additionally compares relationship types, and the lemmas relating the two.
- `Wrappers` (`wrappers.dfy`): `Result` and `Option`.

How external parts are modelled:

- The identifier type `Id` and the metadata type `CommonProperties` are abstract types.
- `Id::object_type()` is not part of this model. Every operation and lemma that needs it takes a parameter `objectType: Id -> string`, so each property holds for every possible implementation.
- The peer kind's static `TYPE` tag, which the filter constructors read, is a plain string parameter `peerTag`.

The match test keeps the source's literal behaviour: it compares only the peer's object type with the filter's tag, and ignores the relationship type. `Matches` models exactly that. `Intended` is a separate predicate. The lemmas prove that `Intended` implies `Matches` and that the two agree when the types agree. `MatchesWithoutIntended` shows they differ exactly on accepted edges of another relationship type, and `TypeMismatchStillMatches` gives a concrete such edge. Callers may filter by type before building the filter, so this divergence is not claimed as a defect.

In the source, display and deserialization come from two derives, strum and serde, configured with the same kebab-case option. The model uses one rule, serde's: a hyphen before each inner upper-case letter, letters lowered, `_` turned into `-`. A single table, `ToString`, serves both display and the wire form, and `Parse` is defined by looking text up in that table. For these four variant names the two derives produce the same spellings.

## Model

| member | source | states |
|---|---|---|
| KebabCase.KebabTailLength | stix/src/relationship.rs:9-10 | after the first character, each upper-case letter becomes a hyphen followed by its lower-case form and every other character becomes exactly one character, so the output length is the input length plus the number of inner capitals |
| KebabCase.KebabTailAlphabet | stix/src/relationship.rs:9-10 | no upper-case letter survives the rule, and names made of letters and digits come out in the lower-case, digit and hyphen alphabet |
| KebabCase.Kebab | stix/src/relationship.rs:9-10 | the renaming rule on a whole name: only the empty name maps to empty text, the output gains one hyphen per inner capital, it has no upper-case letters, and alphanumeric names yield only STIX type-name characters |
| KebabCase.KebabRoundTrip | stix/src/relationship.rs:9-16 | kebab-casing an upper-camel-case name (such as an enum variant) loses no information: turning each hyphen-plus-letter back into a capital recovers the name |
| KebabCase.KebabInjective | stix/src/relationship.rs:9-16 | two distinct upper-camel-case names never get the same kebab-case spelling |
| RelationshipTypes.VariantName | stix/src/relationship.rs:11-16 | each of the four declared variant names is an upper-camel-case identifier, which is what the renaming rule's injectivity needs |
| RelationshipTypes.ToString | stix/src/relationship.rs:8-16 | the display/wire form of every variant is a non-empty spelling in the STIX relationship-type alphabet of lower-case letters, digits and hyphens |
| RelationshipTypes.ToStringIsKebab | stix/src/relationship.rs:8-16 | the display/wire table equals the kebab-case rule applied to each variant name (`Mitigates`, `Uses`, `RevokedBy`, `SubtechniqueOf` give `mitigates`, `uses`, `revoked-by`, `subtechnique-of`), and each spelling is non-empty and uses only lower-case letters, digits and hyphens |
| RelationshipTypes.Lookup | stix/src/relationship.rs:10-16 | finding a variant for a text succeeds only with a variant whose canonical spelling is exactly that text, and fails exactly when no candidate has that spelling |
| RelationshipTypes.Parse | stix/src/relationship.rs:10-16 | deserialization accepts exactly the four canonical spellings, case-sensitively, and returns the variant with that spelling; any other text fails with `UnknownVariant`, which carries the text and the accepted spellings in declaration order |
| RelationshipTypes.Spellings | stix/src/relationship.rs:11-16 | the list of accepted spellings has one entry per variant, in order, each being that variant's canonical text |
| RelationshipTypes.ParseToString | stix/src/relationship.rs:8-16 | round trip: parsing the canonical text of any variant gives that variant back |
| RelationshipTypes.ToStringInjective | stix/src/relationship.rs:11-16 | distinct variants have distinct canonical texts, derived from the injectivity of the renaming rule |
| RelationshipTypes.Spelling | stix/src/relationship.rs:8-16 | the concrete table: `subtechnique-of`, `revoked-by`, `mitigates`, `uses` |
| RelationshipTypes.NearMissesRejected | stix/src/relationship.rs:10-16 | near misses are rejected: unknown text, a wrong case, an underscore instead of a hyphen, empty text |
| Relationships.TypeTag | stix/src/relationship.rs:27-29 | the relationship object's type tag is a well-formed STIX type name, and no relationship type has the same spelling |
| Relationships.AsRef | stix/src/relationship.rs:31-35 | the metadata view is the embedded metadata itself: together with the edge fields it rebuilds the relationship |
| Filters.OutgoingFilter | stix/src/relationship.rs:44-50 | the outgoing constructor fixes the direction to outgoing, keeps the caller's relationship type and takes the peer kind's tag; the peer it selects on any edge is the edge's target |
| Filters.IncomingFilter | stix/src/relationship.rs:52-58 | the incoming constructor fixes the direction to incoming, keeps the caller's relationship type and takes the peer kind's tag; the peer it selects on any edge is the edge's source |
| Filters.Constructors | stix/src/relationship.rs:37-59 | every filter is what one of the two constructors builds from its own type and tag, and the two constructors differ only in direction |
| Filters.Peer | stix/src/relationship.rs:63-66 | the endpoint opposite the anchor is the target for an outgoing filter and the source for an incoming one |
| Filters.Matches | stix/src/relationship.rs:61-69 | the literal match: for an outgoing filter it holds exactly when the target's object type equals the filter's tag, for an incoming one exactly when the source's does; the relationship type plays no part |
| Filters.MatchesOutgoing | stix/src/relationship.rs:61-69 | an outgoing filter matches exactly when the target's object type equals the filter's tag, and changing the source never changes the result |
| Filters.MatchesIncoming | stix/src/relationship.rs:61-69 | an incoming filter matches exactly when the source's object type equals the filter's tag, and changing the target never changes the result |
| Filters.MatchesIgnoresRelationshipType | stix/src/relationship.rs:61-69 | the match never depends on the edge's relationship type, the filter's relationship type or the edge's metadata |
| Filters.DirectionMirror | stix/src/relationship.rs:63-66 | incoming and outgoing are mirror images: flipping the direction and reversing the edge selects the same peer and gives the same answer, for both the literal and the stricter predicate |
| Filters.PeerTypeDiscriminates | stix/src/relationship.rs:61-69 | two edges that differ only in the peer, one with the filter's tag and one without, get different answers |
| Filters.IntendedImpliesMatches | stix/src/relationship.rs:61-69 | the stricter predicate, which also compares relationship types, only accepts edges that the literal match accepts |
| Filters.IntendedAgreesOnType | stix/src/relationship.rs:61-69 | when the edge carries the filter's relationship type, the stricter predicate and the literal match agree |
| Filters.MatchesWithoutIntended | stix/src/relationship.rs:61-69 | the literal match and the stricter predicate differ exactly on the edges the literal match accepts whose relationship type is not the filter's |
| Filters.TypeMismatchStillMatches | stix/src/relationship.rs:61-69 | a `mitigates` edge to a course of action is accepted by the literal match for an outgoing `uses` filter on courses of action, and rejected by the stricter predicate |
| Filters.MitigatesScenario | stix/src/relationship.rs:44-69 | end to end: `mitigates` parses, and an edge from a non-course-of-action to a course of action is selected by the outgoing course-of-action filter and not by the incoming one |

## Left out

- Deserialization of a whole `Relationship` from JSON is not modelled. This includes the flattened `CommonProperties` fields. The model starts from an already-parsed record. `Parse` covers only the relationship-type string.
- `Parse` models only a JSON string naming the variant. Other encodings of a unit variant that a serde deserializer may accept are not modelled.
- `Id` and `CommonProperties` are abstract types. How `object_type()` is computed from an identifier is not part of this model (it is not part of the component), so it is a function parameter.
- petgraph's `EdgeDirection` is modelled as the two-constructor `Direction`. Graph storage and traversal are not part of this model.
- `Cow<'static, str>` is a plain `string`. Borrowed and owned strings behave the same.
- KebabCase.Kebab: upper-case letters are recognised in ASCII only. serde's rule uses Unicode `is_uppercase`. Every variant name here is ASCII.
- KebabCase.Kebab: strum's `Display` derive uses the heck crate's kebab-case, which splits words differently from serde for runs of capitals. This matters for names like `HTTPServer`. The model has one rule, serde's. The two agree on all four variant names, and the table is what both produce.
- The `Debug`, `Clone` and `Hash` derives are not modelled. Equality is Dafny's structural datatype equality, matching the derived `PartialEq`/`Eq`.
- `Relationship != Filter` (the trait's default `ne`) is not modelled. It is the negation of `Matches`.
