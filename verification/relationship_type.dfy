/**
 The closed vocabulary of relationship semantics (stix/src/relationship.rs:8-16) and its textual
 form. The Rust enum derives deserialization (serde) and display (strum) with a kebab-case
 rename; the two derives use different renaming rules, but for these four names both produce
 the same spellings. Here there is one table, `ToString`, which is serde's rule applied to the
 variant names, and `Parse` is defined by looking the text up in that table.
 */
module RelationshipTypes {
  import opened Wrappers
  import opened KebabCase

  datatype RelationshipType = Mitigates | Uses | RevokedBy | SubtechniqueOf

  /** Every variant, in declaration order. */
  const AllVariants: seq<RelationshipType> := [Mitigates, Uses, RevokedBy, SubtechniqueOf]

  /** The error deserialization reports for text that names no variant: the text itself and the
      spellings that would have been accepted. */
  datatype ParseError = UnknownVariant(text: string, expected: seq<string>)

  /** The Rust enum's variant name. */
  function VariantName(t: RelationshipType): (r: string)
    ensures IsPascalName(r)
  {
    match t
    case Mitigates => "Mitigates"
    case Uses => "Uses"
    case RevokedBy => "RevokedBy"
    case SubtechniqueOf => "SubtechniqueOf"
  }

  /** The naming rule applied to the four variant names gives the four canonical spellings. */
  lemma KebabTable()
    ensures Kebab("Mitigates") == "mitigates"
    ensures Kebab("Uses") == "uses"
    ensures Kebab("RevokedBy") == "revoked-by"
    ensures Kebab("SubtechniqueOf") == "subtechnique-of"
  {
    KebabMitigates();
    KebabUses();
    KebabRevokedBy();
    KebabSubtechniqueOf();
  }

  lemma KebabMitigates()
    ensures Kebab("Mitigates") == "mitigates"
  {
    KebabOneWord("Mitigates", 'M', "itigates", "mitigates");
  }

  lemma KebabUses()
    ensures Kebab("Uses") == "uses"
  {
    KebabOneWord("Uses", 'U', "ses", "uses");
  }

  lemma KebabRevokedBy()
    ensures Kebab("RevokedBy") == "revoked-by"
  {
    KebabTwoWords("RevokedBy", 'R', "evoked", 'B', "y", "revoked-by");
  }

  lemma KebabSubtechniqueOf()
    ensures Kebab("SubtechniqueOf") == "subtechnique-of"
  {
    KebabTwoWords("SubtechniqueOf", 'S', "ubtechnique", 'O', "f", "subtechnique-of");
  }

  /** The canonical text of a variant, used both for display and on the wire: a non-empty
      spelling in the STIX 2.1 relationship-type alphabet. */
  function ToString(t: RelationshipType): (r: string)
    ensures |r| > 0
    ensures forall i :: 0 <= i < |r| ==> IsStixChar(r[i])
  {
    match t
    case Mitigates => "mitigates"
    case Uses => "uses"
    case RevokedBy => "revoked-by"
    case SubtechniqueOf => "subtechnique-of"
  }

  /** The spellings `Parse` accepts, in declaration order. */
  function Spellings(vs: seq<RelationshipType>): (r: seq<string>)
    ensures |r| == |vs|
    ensures forall i :: 0 <= i < |vs| ==> r[i] == ToString(vs[i])
  {
    if vs == [] then [] else [ToString(vs[0])] + Spellings(vs[1..])
  }

  /** A variant in `vs` whose canonical text is exactly `text`, if there is one. */
  function Lookup(text: string, vs: seq<RelationshipType>): (r: Option<RelationshipType>)
    ensures r.Some? ==> r.value in vs && ToString(r.value) == text
    ensures r.None? <==> forall v :: v in vs ==> ToString(v) != text
  {
    if vs == [] then None
    else if ToString(vs[0]) == text then Some(vs[0])
    else Lookup(text, vs[1..])
  }

  /** Deserialization of a relationship type from its text: an exact, case-sensitive match
      against the canonical spellings, otherwise an `UnknownVariant` error. */
  function Parse(text: string): (r: Result<RelationshipType, ParseError>)
    ensures r.Ok? ==> ToString(r.value) == text
    ensures r.Ok? <==> text in Spellings(AllVariants)
    ensures r.Err? ==> r.error == UnknownVariant(text, Spellings(AllVariants))
  {
    match Lookup(text, AllVariants)
    case Some(t) => Ok(t)
    case None => Err(UnknownVariant(text, Spellings(AllVariants)))
  }

  /** The table is what serde's kebab-case rule makes of the variant names (for these names
      strum's display rule gives the same spellings), and every spelling is non-empty and
      written in the STIX 2.1 relationship-type alphabet. */
  lemma ToStringIsKebab(t: RelationshipType)
    ensures ToString(t) == Kebab(VariantName(t))
    ensures |ToString(t)| > 0
    ensures forall i :: 0 <= i < |ToString(t)| ==> IsStixChar(ToString(t)[i])
  {
    KebabTable();
  }

  /** Parsing the canonical text of a variant gives the variant back. */
  lemma ParseToString(t: RelationshipType)
    ensures Parse(ToString(t)) == Ok(t)
  {
    assert t in AllVariants;
    var found := Lookup(ToString(t), AllVariants);
    ToStringInjective(found.value, t);
  }

  /** Distinct variants have distinct canonical texts; this follows from the naming rule being
      injective on upper-camel-case names. */
  lemma ToStringInjective(a: RelationshipType, b: RelationshipType)
    requires ToString(a) == ToString(b)
    ensures a == b
  {
    ToStringIsKebab(a);
    ToStringIsKebab(b);
    KebabInjective(VariantName(a), VariantName(b));
  }

  /** The concrete table. */
  lemma Spelling()
    ensures ToString(SubtechniqueOf) == "subtechnique-of" && ToString(RevokedBy) == "revoked-by"
    ensures ToString(Mitigates) == "mitigates" && ToString(Uses) == "uses"
  {
  }

  /** Near misses of the canonical spellings are rejected: unknown text, another case, an
      underscore for the hyphen, and the empty text. */
  lemma NearMissesRejected()
    ensures Parse("not-a-type").Err?
    ensures Parse("Uses").Err?
    ensures Parse("revoked_by").Err?
    ensures Parse("").Err?
  {
    assert "not-a-type" !in Spellings(AllVariants);
    assert "Uses" !in Spellings(AllVariants);
    assert "revoked_by" !in Spellings(AllVariants);
    assert "" !in Spellings(AllVariants);
  }
}
