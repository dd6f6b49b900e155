/** Read-only lookups over the complex table (src/services/complexServices.js). */
module ComplexServices {
  import opened Seqs
  import opened Schema

  /** `toLowerCase` on one character; only the ASCII letters are modelled. */
  function LowerChar(c: char): char {
    if 'A' <= c <= 'Z' then (c as int + 32) as char else c
  }

  function ToLower(s: string): (r: string)
    ensures |r| == |s|
    ensures forall i :: 0 <= i < |s| ==> r[i] == LowerChar(s[i])
  {
    seq(|s|, i requires 0 <= i < |s| => LowerChar(s[i]))
  }

  /** `needle` occurs in `hay` starting at position `k`. */
  predicate OccursAt(hay: string, needle: string, k: int) {
    0 <= k && k + |needle| <= |hay| && hay[k..k + |needle|] == needle
  }

  /** The ORM's `contains` filter, taken as case-sensitive: `needle` occurs in `hay`. */
  predicate Contains(hay: string, needle: string) {
    exists k :: 0 <= k <= |hay| && OccursAt(hay, needle, k)
  }

  /** isComplexNameContained: some stored name contains the lowercased query. */
  function IsComplexNameContained(complexes: seq<Complex>, complexName: string): (found: bool)
    ensures found <==> exists c :: c in complexes && Contains(c.name, ToLower(complexName))
  {
    FindFirst(complexes, (c: Complex) => Contains(c.name, ToLower(complexName))).Some?
  }

  /** The three ways getComplexByName ends: null, a complex, or a thrown error. */
  datatype ComplexLookup = NoComplex | FoundComplex(complex: Complex) | LookupFailed

  /** getComplexByName: null unless the substring pre-check passes, then the first
      complex named exactly `complexName`, or an error when there is none. */
  function GetComplexByName(complexes: seq<Complex>, complexName: string): (r: ComplexLookup)
    ensures r.NoComplex? <==> forall c :: c in complexes ==> !Contains(c.name, ToLower(complexName))
    ensures r.FoundComplex? ==> r.complex in complexes && r.complex.name == complexName
    ensures r.LookupFailed? <==>
              (exists c :: c in complexes && Contains(c.name, ToLower(complexName))) &&
              (forall c :: c in complexes ==> c.name != complexName)
  {
    if !IsComplexNameContained(complexes, complexName) then NoComplex
    else match FindFirst(complexes, (c: Complex) => c.name == complexName)
      case None => LookupFailed
      case Some(c) => FoundComplex(c)
  }

  /** getAllComplexesNames: one entry per stored complex, holding its name only. */
  function GetAllComplexesNames(complexes: seq<Complex>): (names: seq<string>)
    ensures |names| == |complexes|
    ensures forall i :: 0 <= i < |complexes| ==> names[i] == complexes[i].name
  {
    seq(|complexes|, i requires 0 <= i < |complexes| => complexes[i].name)
  }

  /** A complex whose stored name is already lower case is found by its exact name. */
  lemma LowercaseNameIsFound(complexes: seq<Complex>, k: int)
    requires 0 <= k < |complexes|
    requires ToLower(complexes[k].name) == complexes[k].name
    ensures GetComplexByName(complexes, complexes[k].name).FoundComplex?
  {
    var name := complexes[k].name;
    assert name[0..|name|] == name;
    assert OccursAt(name, ToLower(name), 0);
    assert complexes[k] in complexes;
  }

  /** A name with an upper-case letter does not contain its own lowercasing: the two
      have the same length, so the only place it could occur is the whole name. */
  lemma NameMissesOwnLowercase(name: string)
    requires ToLower(name) != name
    ensures !Contains(name, ToLower(name))
  {
    forall k
      ensures !OccursAt(name, ToLower(name), k)
    {
      if 0 <= k && k + |name| <= |name| {
        assert name[k..k + |name|] == name;
      }
    }
  }

  /** Because the pre-check lowercases the query but not the stored name, a complex
      whose stored name has an upper-case letter is not found even by its exact name,
      unless some other stored name happens to contain the lowercased form. */
  lemma CapitalisedNameIsNotFound(complexes: seq<Complex>, k: int)
    requires 0 <= k < |complexes|
    requires ToLower(complexes[k].name) != complexes[k].name
    requires forall j :: 0 <= j < |complexes| && j != k ==>
               !Contains(complexes[j].name, ToLower(complexes[k].name))
    ensures GetComplexByName(complexes, complexes[k].name) == NoComplex
  {
    NameMissesOwnLowercase(complexes[k].name);
  }

  /** A query that differs only in case from a stored lower-case name passes the
      pre-check, and when no stored name equals the query itself the exact-name lookup
      fails: the error path. */
  lemma UppercaseQueryFails(complexes: seq<Complex>, k: int, query: string)
    requires 0 <= k < |complexes|
    requires ToLower(query) == complexes[k].name
    requires forall j :: 0 <= j < |complexes| ==> complexes[j].name != query
    ensures GetComplexByName(complexes, query) == LookupFailed
  {
    var name := complexes[k].name;
    assert name[0..|name|] == name;
    assert OccursAt(name, ToLower(query), 0);
    assert complexes[k] in complexes;
  }

  /** The two lemmas above on one-row tables: "Alpha" queried as "Alpha" gives null,
      and "alpha" queried as "ALPHA" throws. */
  lemma CaseExamples()
    ensures GetComplexByName([Complex(1, "Alpha")], "Alpha") == NoComplex
    ensures GetComplexByName([Complex(1, "alpha")], "ALPHA") == LookupFailed
  {
    assert ToLower("Alpha") == "alpha";
    assert ToLower("ALPHA") == "alpha";
    CapitalisedNameIsNotFound([Complex(1, "Alpha")], 0);
    UppercaseQueryFails([Complex(1, "alpha")], 0, "ALPHA");
  }
}
