/**
 * The banner picker of the client: which loaded banners it offers for a
 * search term, how it names a banner type, and where it finds an image.
 */
module BannerSelector {
  import opened Wrappers
  import Text
  import Seqs
  import Banners

  /** `excludeId` is a number or absent; 0 is falsy and excludes nothing. */
  predicate ExcludesAny(excludeId: Option<int>) {
    excludeId.Some? && excludeId.value != 0
  }

  /** The search hits the lower-cased type, or the id's decimal text taken as typed. */
  predicate SearchHits(b: Banners.Banner, term: string) {
    Text.Contains(Text.Lower(b.kind), Text.Lower(term)) || Text.Contains(Text.IntToString(b.id), term)
  }

  /** What the picker shows: the excluded banner dropped, then the search applied unless the term is blank. */
  predicate Shown(b: Banners.Banner, excludeId: Option<int>, term: string) {
    !(ExcludesAny(excludeId) && b.id == excludeId.value) && (Text.Trim(term) == [] || SearchHits(b, term))
  }

  /** The filtering effect of the picker: the loaded banners it shows, in their loaded order. */
  function Visible(banners: seq<Banners.Banner>, excludeId: Option<int>, term: string): (r: seq<Banners.Banner>)
    ensures forall b :: b in r <==> b in banners && Shown(b, excludeId, term)
    ensures Seqs.IsSubsequence(r, banners)
  {
    var kept := if ExcludesAny(excludeId) then Seqs.Filter(banners, (b: Banners.Banner) => b.id != excludeId.value) else banners;
    assert Seqs.IsSubsequence(kept, banners) by {
      if !ExcludesAny(excludeId) {
        Seqs.FilterKeepsAll(banners, (b: Banners.Banner) => true);
      }
    }
    if Text.Trim(term) == [] then kept
    else
      var found := Seqs.Filter(kept, (b: Banners.Banner) => SearchHits(b, term));
      Seqs.SubsequenceTrans(found, kept, banners);
      found
  }

  /** The picker never offers the excluded banner. */
  lemma VisibleNeverExcluded(banners: seq<Banners.Banner>, excludeId: Option<int>, term: string)
    requires ExcludesAny(excludeId)
    ensures forall b :: b in Visible(banners, excludeId, term) ==> b.id != excludeId.value
  {
  }

  /** A blank term offers every banner that is not excluded, and with nothing excluded the list is unchanged. */
  lemma BlankTermKeepsAll(banners: seq<Banners.Banner>, excludeId: Option<int>, term: string)
    requires Text.AllJsSpace(term)
    ensures forall b :: b in Visible(banners, excludeId, term) <==>
                        b in banners && !(ExcludesAny(excludeId) && b.id == excludeId.value)
    ensures !ExcludesAny(excludeId) ==> Visible(banners, excludeId, term) == banners
  {
    Text.TrimEmptyIff(term);
  }

  /** With a non-blank term, a banner is offered iff it is not excluded and the term hits its type or id. */
  lemma SearchIff(banners: seq<Banners.Banner>, excludeId: Option<int>, term: string)
    requires !Text.AllJsSpace(term)
    ensures forall b :: b in Visible(banners, excludeId, term) <==>
                        b in banners && !(ExcludesAny(excludeId) && b.id == excludeId.value) &&
                        (Text.Contains(Text.Lower(b.kind), Text.Lower(term)) || Text.Contains(Text.IntToString(b.id), term))
  {
    Text.TrimEmptyIff(term);
  }

  /** The type search ignores case: a term spelling a loaded banner's type in any case offers that banner. */
  lemma TypeSearchIgnoresCase(banners: seq<Banners.Banner>, b: Banners.Banner, term: string)
    requires b in banners && !Text.AllJsSpace(term) && Text.Lower(term) == Text.Lower(b.kind)
    ensures b in Visible(banners, None, term)
  {
    Text.TrimEmptyIff(term);
    assert Text.StartsWith(Text.Lower(b.kind), Text.Lower(term));
  }

  // ---- labels and images ------------------------------------------------------

  const TypeLabels: map<string, string> := map[
    "default" := "По умолчанию", "mobile" := "Мобильный", "tablet" := "Планшет",
    "desktop" := "Десктоп", "all" := "Все устройства"]

  /** `getBannerTypeLabel`: a known type's label, any other type shown as itself. */
  function TypeLabel(kind: string): (name: string)
    ensures kind in TypeLabels ==> name == TypeLabels[kind] && name != kind
    ensures kind !in TypeLabels ==> name == kind
  {
    if kind in TypeLabels then TypeLabels[kind] else kind
  }

  /** Every type the server accepts has a label, and no other type has one. */
  lemma LabelsCoverBannerTypes()
    ensures TypeLabels.Keys == Banners.BannerTypes
  {
  }

  /** Different known types get different labels. */
  lemma TypeLabelDistinguishesKnownTypes(a: string, b: string)
    requires a in Banners.BannerTypes && b in Banners.BannerTypes && a != b
    ensures TypeLabel(a) != TypeLabel(b)
  {
  }

  const Placeholder := "/placeholder-banner.png"
  const StoragePrefix := "/storage/"

  /** `getImageUrl`: the placeholder for a missing or empty path, otherwise the path under the public storage root. */
  function ImageUrl(path: Option<string>): (url: string)
    ensures url == Placeholder <==> path.None? || path.value == []
    ensures path.Some? && path.value != [] ==> Text.StartsWith(url, StoragePrefix) && url[|StoragePrefix|..] == path.value
  {
    if path.None? || path.value == [] then Placeholder
    else
      var url := StoragePrefix + path.value;
      assert url[1] != Placeholder[1];
      url
  }

  /** Two stored images never share a URL. */
  lemma ImageUrlInjective(a: string, b: string)
    requires a != [] && b != [] && ImageUrl(Some(a)) == ImageUrl(Some(b))
    ensures a == b
  {
  }
}
