/**
 * The permission picker of the client: a search box that narrows the list of
 * all permissions by name, and the check that marks the selected ones.
 */
module PermissionSearch {
  import Text
  import Seqs

  datatype Permission = Permission(id: int, name: string)

  /** A permission's lower-cased name contains the lower-cased term, which is not trimmed. */
  predicate Matches(p: Permission, term: string) {
    Text.Contains(Text.Lower(p.name), Text.Lower(term))
  }

  /** The list the picker shows: everything for a blank term, otherwise the matching permissions in their order. */
  function Filtered(all: seq<Permission>, term: string): (r: seq<Permission>)
    ensures Text.AllJsSpace(term) ==> r == all
    ensures !Text.AllJsSpace(term) ==> forall p :: p in r <==> p in all && Matches(p, term)
    ensures Seqs.IsSubsequence(r, all)
  {
    Text.TrimEmptyIff(term);
    if Text.Trim(term) == [] then
      Seqs.SubsequenceOfItself(all);
      all
    else
      Seqs.Filter(all, (p: Permission) => Matches(p, term))
  }


  /** The count the picker shows as "found" never exceeds the total. */
  lemma FoundAtMostAll(all: seq<Permission>, term: string)
    ensures |Filtered(all, term)| <= |all|
  {
  }

  /** The case of the typed term does not matter: it gives the same list as its lower-cased form. */
  lemma SearchIgnoresCase(all: seq<Permission>, term: string)
    ensures Filtered(all, term) == Filtered(all, Text.Lower(term))
  {
    var lower := Text.Lower(term);
    Text.LowerKeepsSpaces(term);
    if !Text.AllJsSpace(term) {
      FilteredByMatch(all, term);
      FilteredByMatch(all, lower);
      SameMatches(all, term);
    }
  }

  lemma FilteredByMatch(all: seq<Permission>, term: string)
    requires !Text.AllJsSpace(term)
    ensures Filtered(all, term) == Seqs.Filter(all, (x: Permission) => Matches(x, term))
  {
    Text.TrimEmptyIff(term);
  }

  lemma SameMatches(all: seq<Permission>, term: string)
    ensures Seqs.Filter(all, (x: Permission) => Matches(x, term)) ==
            Seqs.Filter(all, (x: Permission) => Matches(x, Text.Lower(term)))
  {
    Text.LowerIdempotent(term);
    Seqs.FilterAgrees(all, (x: Permission) => Matches(x, term), (x: Permission) => Matches(x, Text.Lower(term)));
  }

  /** A permission whose name is the term, in any case, is found. */
  lemma ExactNameIsFound(all: seq<Permission>, p: Permission, term: string)
    requires p in all && Text.Lower(term) == Text.Lower(p.name)
    ensures p in Filtered(all, term)
  {
    assert Text.StartsWith(Text.Lower(p.name), Text.Lower(term));
  }

  /** A padded term keeps its spaces: a permission whose name lacks the padding is not found. */
  lemma PaddedTermMissesBareName()
    ensures Filtered([Permission(1, "view")], " view") == []
  {
    var p := Permission(1, "view");
    var term := " view";
    assert !Text.IsJsSpace(term[1]);
    assert Text.Lower(term)[0] == ' ';
    assert |Text.Lower(p.name)| == 4;
    Text.ContainsIff(Text.Lower(p.name), Text.Lower(term));
  }

  /** `isSelected`: the id is one of the selected ids. */
  function IsSelected(selected: seq<int>, id: int): (b: bool)
    ensures b <==> exists i :: 0 <= i < |selected| && selected[i] == id
  {
    id in selected
  }
}
