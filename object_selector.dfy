/** The search box of the object selector: the listed objects whose label or API name contains
    the search term, ignoring case. */
module ObjectSelector {
  import opened Seqs
  import opened Text
  import opened Session

  /** The test of the `filteredObjects` filter for one object. */
  predicate MatchesSearch(obj: ObjectInfo, searchTerm: string)
  {
    Contains(Lower(obj.labelText), Lower(searchTerm)) || Contains(Lower(obj.apiName), Lower(searchTerm))
  }

  /** `filteredObjects`: the objects that match the search term, in list order. */
  function FilteredObjects(objects: seq<ObjectInfo>, searchTerm: string): (r: seq<ObjectInfo>)
    ensures |r| <= |objects|
    ensures forall i :: 0 <= i < |r| ==> r[i] in objects && MatchesSearch(r[i], searchTerm)
    ensures forall i :: 0 <= i < |objects| && MatchesSearch(objects[i], searchTerm) ==> objects[i] in r
  {
    Filter(objects, obj => MatchesSearch(obj, searchTerm))
  }

  /** The filter keeps the list order. */
  lemma FilteredIsSubseq(objects: seq<ObjectInfo>, searchTerm: string)
    ensures IsSubseq(FilteredObjects(objects, searchTerm), objects)
  {
    FilterIsSubseq(objects, obj => MatchesSearch(obj, searchTerm));
  }

  /** A listed object is shown exactly when its label or API name contains the term. */
  lemma FilteredIff(objects: seq<ObjectInfo>, searchTerm: string, obj: ObjectInfo)
    requires obj in objects
    ensures obj in FilteredObjects(objects, searchTerm) <==> MatchesSearch(obj, searchTerm)
  {
    var r := FilteredObjects(objects, searchTerm);
    if obj in r {
      var i :| 0 <= i < |r| && r[i] == obj;
    }
  }

  /** Every string contains the empty string. */
  lemma ContainsEmpty(s: string)
    ensures Contains(s, "")
  {
    assert OccursAt(s, "", 0);
  }

  /** An empty search box shows every object. */
  lemma EmptySearchShowsAll(objects: seq<ObjectInfo>)
    ensures FilteredObjects(objects, "") == objects
  {
    forall i | 0 <= i < |objects| ensures MatchesSearch(objects[i], "") {
      ContainsEmpty(Lower(objects[i].labelText));
    }
    FilterAll(objects, obj => MatchesSearch(obj, ""));
  }

  /** Two search terms that agree up to case show the same objects. */
  lemma SearchIgnoresCase(objects: seq<ObjectInfo>, a: string, b: string)
    requires Lower(a) == Lower(b)
    ensures FilteredObjects(objects, a) == FilteredObjects(objects, b)
  {
    FilterExt(objects, obj => MatchesSearch(obj, a), obj => MatchesSearch(obj, b));
  }

  /** Lower-casing the search term changes nothing. */
  lemma SearchLowered(objects: seq<ObjectInfo>, searchTerm: string)
    ensures FilteredObjects(objects, Lower(searchTerm)) == FilteredObjects(objects, searchTerm)
  {
    LowerIdempotent(searchTerm);
    SearchIgnoresCase(objects, Lower(searchTerm), searchTerm);
  }

  /** Typing more characters never brings back an object: every object shown for the longer term
      is shown for its prefix. */
  lemma NarrowingSearch(objects: seq<ObjectInfo>, term: string, more: string, obj: ObjectInfo)
    requires obj in FilteredObjects(objects, term + more)
    ensures obj in FilteredObjects(objects, term)
  {
    var r := FilteredObjects(objects, term + more);
    var i :| 0 <= i < |r| && r[i] == obj;
    LowerConcat(term, more);
    var lt := Lower(term);
    if Contains(Lower(obj.labelText), Lower(term + more)) {
      ContainsPiece(Lower(obj.labelText), Lower(term + more), 0, |lt|);
      assert Lower(term + more)[0..|lt|] == lt;
    } else {
      ContainsPiece(Lower(obj.apiName), Lower(term + more), 0, |lt|);
      assert Lower(term + more)[0..|lt|] == lt;
    }
    FilteredIff(objects, term, obj);
  }
}
