/** The keyword filter `HeadHunter._check_vacancy_on_extra_tags`: a vacancy is
    kept only when its description mentions every extra tag. */
module KeywordFilter {
  import opened Text

  /** `re.search(tag, description, flags=re.I)` finds a match, the tag being
      read as a literal piece of text. */
  predicate TagMatches(description: string, tag: string)
  {
    Contains(Lower(description), Lower(tag))
  }

  /** Every tag occurs in the description (vacuously so for no tags). */
  predicate AllTagsMatch(description: string, tags: seq<string>)
  {
    forall i :: 0 <= i < |tags| ==> TagMatches(description, tags[i])
  }

  /** The loop of `_check_vacancy_on_extra_tags`: `flag` is and-ed with each
      search result in turn and the loop breaks at the first miss. The ghost
      `scanned` counts the searches made: all tags when every one matches,
      otherwise up to and including the first tag that does not. */
  method CheckExtraTags(description: string, tags: seq<string>) returns (flag: bool, ghost scanned: nat)
    ensures flag == AllTagsMatch(description, tags)
    ensures scanned <= |tags|
    ensures flag ==> scanned == |tags|
    ensures !flag ==> 0 < scanned && !TagMatches(description, tags[scanned - 1])
    ensures forall j :: 0 <= j < scanned - 1 ==> TagMatches(description, tags[j])
  {
    flag := true;
    scanned := 0;
    var i := 0;
    while i < |tags|
      invariant 0 <= i <= |tags|
      invariant flag && scanned == i
      invariant forall j :: 0 <= j < i ==> TagMatches(description, tags[j])
    {
      var found := TagMatches(description, tags[i]);
      flag := flag && found;
      scanned := i + 1;
      if !flag {
        break;
      }
      i := i + 1;
    }
  }

  /** A tag matches regardless of how the tag or the description is capitalised. */
  lemma TagMatchIgnoresCase(description: string, tag: string)
    ensures TagMatches(Lower(description), tag) == TagMatches(description, tag)
    ensures TagMatches(description, Lower(tag)) == TagMatches(description, tag)
  {
    LowerIdempotent(description);
    LowerIdempotent(tag);
  }

  /** Adding a tag can only make the filter stricter: the tags match together
      exactly when the old ones match and the new one does. */
  lemma {:induction false} AllTagsMatchAppend(description: string, tags: seq<string>, tag: string)
    ensures AllTagsMatch(description, tags + [tag]) == (AllTagsMatch(description, tags) && TagMatches(description, tag))
  {
    var ext := tags + [tag];
    assert ext[|tags|] == tag;
    assert forall i :: 0 <= i < |tags| ==> ext[i] == tags[i];
  }

  lemma LowerExampleDescription()
    ensures Lower("Senior Go Engineer") == "senior go engineer"
  {
  }

  /** With no tags every description passes. */
  lemma FilterAcceptsWithoutTags(description: string)
    ensures AllTagsMatch(description, [])
  {
  }

  lemma FilterFindsTagInAnyCase()
    ensures AllTagsMatch("Senior Go Engineer", ["go"])
    ensures AllTagsMatch("Senior Go Engineer", ["GO"])
  {
    LowerExampleDescription();
    assert Lower("go") == "go" && Lower("GO") == "go";
    assert "go" <= "senior go engineer"[7..];
  }

  lemma FilterNeedsEveryTag()
    ensures !AllTagsMatch("Senior Go Engineer", ["go", "rust"])
  {
    LowerExampleDescription();
    assert Lower("rust") == "rust";
    NotContainedWhenCharMissing("senior go engineer", "rust", 1);
    assert !TagMatches("Senior Go Engineer", ["go", "rust"][1]);
  }
}
