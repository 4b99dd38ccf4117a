/**
 The kebab-case renaming rule of serde's derive, which `RelationshipType` applies to the enum's
 variant names (stix/src/relationship.rs:9-10). Scanning the name left to right, every upper-case letter
 after the first character is preceded by a hyphen, every letter is lowered, and an underscore
 becomes a hyphen; so `SubtechniqueOf` becomes `subtechnique-of`.

 The module also gives the rule's inverse on Rust upper-camel-case names (`Pascal`), which is
 what makes the rule injective on variant names.
 */
module KebabCase {

  predicate IsUpper(c: char) { 'A' <= c <= 'Z' }

  predicate IsLower(c: char) { 'a' <= c <= 'z' }

  predicate IsDigit(c: char) { '0' <= c <= '9' }

  predicate IsAlnum(c: char) { IsUpper(c) || IsLower(c) || IsDigit(c) }

  /** The characters STIX 2.1 allows in type names and relationship types:
      lower-case ASCII letters, digits and the hyphen. */
  predicate IsStixChar(c: char) { IsLower(c) || IsDigit(c) || c == '-' }

  /** An upper-camel-case identifier such as a Rust enum variant name. */
  ghost predicate IsPascalName(name: string) {
    && |name| > 0
    && IsUpper(name[0])
    && forall i :: 0 <= i < |name| ==> IsAlnum(name[i])
  }

  function ToUpper(c: char): char {
    if IsLower(c) then (c as int - 32) as char else c
  }

  /** ASCII lowering: upper-case letters move to lower case, every other character is kept. */
  function ToLower(c: char): (d: char)
    ensures IsUpper(c) ==> IsLower(d) && ToUpper(d) == c
    ensures !IsUpper(c) ==> d == c
  {
    if IsUpper(c) then (c as int + 32) as char else c
  }

  /** Number of upper-case letters in `s`: each one after the first position costs a hyphen. */
  function UpperCount(s: string): nat {
    if s == [] then 0 else (if IsUpper(s[0]) then 1 else 0) + UpperCount(s[1..])
  }

  /** What one character contributes to the output when it is not the first one. */
  function Segment(c: char): string {
    if IsUpper(c) then ['-', ToLower(c)]
    else if c == '_' then ['-']
    else [c]
  }

  /** The first character is lowered without a hyphen in front of it. */
  function Initial(c: char): char {
    if c == '_' then '-' else ToLower(c)
  }

  /** The rule applied to every character after the first one. */
  function KebabTail(s: string): string {
    if s == [] then [] else Segment(s[0]) + KebabTail(s[1..])
  }

  /** Every upper-case letter after the first position adds exactly one hyphen. */
  lemma {:induction false} KebabTailLength(s: string)
    ensures |KebabTail(s)| == |s| + UpperCount(s)
  {
    if s != [] {
      KebabTailLength(s[1..]);
    }
  }

  /** No upper-case letter survives the rule, and letters and digits come out in the
      alphabet STIX 2.1 prescribes. */
  lemma {:induction false} KebabTailAlphabet(s: string)
    ensures forall i :: 0 <= i < |KebabTail(s)| ==> !IsUpper(KebabTail(s)[i])
    ensures (forall i :: 0 <= i < |s| ==> IsAlnum(s[i])) ==>
              forall i :: 0 <= i < |KebabTail(s)| ==> IsStixChar(KebabTail(s)[i])
  {
    if s != [] {
      var tail := s[1..];
      assert forall i :: 0 <= i < |tail| ==> tail[i] == s[i + 1];
      KebabTailAlphabet(tail);
      var seg, rest := Segment(s[0]), KebabTail(tail);
      assert KebabTail(s) == seg + rest;
      assert forall i :: |seg| <= i < |seg + rest| ==> (seg + rest)[i] == rest[i - |seg|];
    }
  }

  /** The kebab-case form of a name: only the empty name maps to the empty text, the length
      grows by one hyphen per inner upper-case letter, no upper-case letter survives, and an
      alphanumeric name comes out in the STIX 2.1 type-name alphabet. */
  function Kebab(name: string): (r: string)
    ensures r == [] <==> name == []
    ensures name != [] ==> |r| == |name| + UpperCount(name[1..])
    ensures forall i :: 0 <= i < |r| ==> !IsUpper(r[i])
    ensures (forall i :: 0 <= i < |name| ==> IsAlnum(name[i])) ==>
              forall i :: 0 <= i < |r| ==> IsStixChar(r[i])
  {
    if name == [] then []
    else
      var tail := name[1..];
      assert forall i :: 0 <= i < |tail| ==> tail[i] == name[i + 1];
      KebabTailLength(tail);
      KebabTailAlphabet(tail);
      var r := [Initial(name[0])] + KebabTail(tail);
      assert forall i :: 1 <= i < |r| ==> r[i] == KebabTail(tail)[i - 1];
      r
  }

  /** The rule works character by character, so it distributes over concatenation. */
  lemma {:induction false} KebabTailAppend(a: string, b: string)
    ensures KebabTail(a + b) == KebabTail(a) + KebabTail(b)
  {
    if a == [] {
      assert a + b == b;
    } else {
      assert (a + b)[0] == a[0] && (a + b)[1..] == a[1..] + b;
      KebabTailAppend(a[1..], b);
    }
  }

  /** A run of characters the rule leaves unchanged: no upper-case letter and no underscore. */
  ghost predicate IsPlain(s: string) {
    forall i :: 0 <= i < |s| ==> !IsUpper(s[i]) && s[i] != '_'
  }

  lemma {:induction false} KebabTailPlain(s: string)
    requires IsPlain(s)
    ensures KebabTail(s) == s
  {
    if s != [] {
      KebabTailPlain(s[1..]);
      assert [s[0]] + s[1..] == s;
    }
  }

  /** A one-word name is lowered and otherwise kept.

      This lemma and `KebabTwoWords` take the name and the expected output as parameters, fixed
      by `requires`, instead of writing the concatenations in the `ensures`: applied to string
      literals, that keeps the solver from unfolding `Kebab` character by character. */
  lemma KebabOneWord(name: string, c: char, word: string, out: string)
    requires name == [c] + word && IsUpper(c) && IsPlain(word)
    requires out == [ToLower(c)] + word
    ensures Kebab(name) == out
  {
    assert name[1..] == word;
    KebabTailPlain(word);
  }

  /** A two-word name is lowered and a hyphen joins the words. */
  lemma KebabTwoWords(name: string, c: char, word: string, d: char, word2: string, out: string)
    requires name == [c] + word + [d] + word2
    requires IsUpper(c) && IsPlain(word) && IsUpper(d) && IsPlain(word2)
    requires out == [ToLower(c)] + word + ['-', ToLower(d)] + word2
    ensures Kebab(name) == out
  {
    KebabJoin(c, word, d, word2);
  }

  lemma KebabJoin(c: char, word: string, d: char, word2: string)
    requires IsUpper(c) && IsPlain(word) && IsUpper(d) && IsPlain(word2)
    ensures Kebab([c] + word + [d] + word2) == [ToLower(c)] + word + ['-', ToLower(d)] + word2
  {
    var name := [c] + word + [d] + word2;
    assert name[1..] == word + ([d] + word2);
    assert ([d] + word2)[1..] == word2;
    KebabTailAppend(word, [d] + word2);
    KebabTailPlain(word);
    KebabTailPlain(word2);
  }

  /** Inverse of `KebabTail`: a hyphen and the letter after it become that letter in upper case. */
  function PascalTail(k: string): string {
    if k == [] then []
    else if k[0] == '-' && |k| >= 2 then [ToUpper(k[1])] + PascalTail(k[2..])
    else [k[0]] + PascalTail(k[1..])
  }

  /** Inverse of `Kebab` on upper-camel-case names. */
  function Pascal(k: string): string {
    if k == [] then [] else [ToUpper(k[0])] + PascalTail(k[1..])
  }

  lemma {:induction false} PascalTailKebabTail(s: string)
    requires forall i :: 0 <= i < |s| ==> IsAlnum(s[i])
    ensures PascalTail(KebabTail(s)) == s
  {
    if s != [] {
      var c, tail := s[0], s[1..];
      assert forall i :: 0 <= i < |tail| ==> tail[i] == s[i + 1];
      PascalTailKebabTail(tail);
      var rest := KebabTail(tail);
      var k := Segment(c) + rest;
      assert KebabTail(s) == k;
      if IsUpper(c) {
        assert k[0] == '-' && k[1] == ToLower(c) && k[2..] == rest;
        assert PascalTail(k) == [ToUpper(ToLower(c))] + PascalTail(rest);
      } else {
        assert k[0] == c && k[1..] == rest;
      }
      assert [c] + tail == s;
    }
  }

  /** Kebab-casing an upper-camel-case name loses nothing: `Pascal` recovers it. */
  lemma KebabRoundTrip(name: string)
    requires IsPascalName(name)
    ensures Pascal(Kebab(name)) == name
  {
    var tail := name[1..];
    assert forall i :: 0 <= i < |tail| ==> tail[i] == name[i + 1];
    PascalTailKebabTail(tail);
    var k := Kebab(name);
    assert k[0] == ToLower(name[0]) && k[1..] == KebabTail(tail);
    assert [name[0]] + tail == name;
  }

  /** Distinct upper-camel-case names have distinct kebab-case forms. */
  lemma KebabInjective(a: string, b: string)
    requires IsPascalName(a) && IsPascalName(b)
    requires Kebab(a) == Kebab(b)
    ensures a == b
  {
    KebabRoundTrip(a);
    KebabRoundTrip(b);
  }
}
