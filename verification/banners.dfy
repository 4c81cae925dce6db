/**
 * Banner images and their one-level hierarchy. An upload stores a list of
 * files as banners of one type; the file under key 0 becomes the main
 * banner and every later file a child pointing at it. The listing can be
 * narrowed to one type; an update replaces image, type and parent.
 */
module Banners {
  import opened Wrappers
  import Seqs
  import Json
  import Text
  import Validation

  /** A stored banner; `kind` is the `type` column and `parentId` the nullable `banner_id`. */
  datatype Banner = Banner(id: int, image: string, kind: string, parentId: Option<int>)

  /** The banner table with its auto-increment counter. */
  datatype Store = Store(rows: seq<Banner>, nextId: int)

  /** The accepted banner types. */
  const BannerTypes: set<string> := {"default", "mobile", "tablet", "desktop", "all"}

  /** One uploaded file under its array key; `path` is where storage put it. */
  datatype UploadedFile = UploadedFile(key: int, path: string)

  /** The upload request as received: `files` is `None` when the field is missing or not an array. */
  datatype UploadRequest = UploadRequest(files: Option<seq<UploadedFile>>, kind: Option<string>)

  datatype Failure = Invalid(fields: set<string>) | ServerError

  datatype Uploaded = Uploaded(store: Store, images: seq<string>)

  /** Ids are distinct and below the counter, and every type is a known one. */
  predicate WellFormed(s: Store) {
    (forall i :: 0 <= i < |s.rows| ==> s.rows[i].id < s.nextId && s.rows[i].kind in BannerTypes) &&
    (forall i, j :: 0 <= i < j < |s.rows| ==> s.rows[i].id != s.rows[j].id)
  }

  /**
   * The main banner in force when file `i` is saved: the id given to the
   * latest earlier file under key 0, or `main` when there is none.
   */
  function MainAt(files: seq<UploadedFile>, i: nat, nextId: int, main: Option<int>): Option<int>
    requires i <= |files|
  {
    if i == 0 then main
    else if files[i - 1].key == 0 then Some(nextId + i - 1)
    else MainAt(files, i - 1, nextId, main)
  }

  lemma {:induction false} MainAtShift(files: seq<UploadedFile>, i: nat, nextId: int, main: Option<int>)
    requires 1 <= i <= |files|
    ensures MainAt(files[1..], i - 1, nextId + 1, if files[0].key == 0 then Some(nextId) else main) ==
            MainAt(files, i, nextId, main)
  {
    if i > 1 {
      assert files[1..][i - 2] == files[i - 1];
      MainAtShift(files, i - 1, nextId, main);
    }
  }

  /**
   * The loop of `uploadBanners`: each file becomes a banner of `kind` with
   * the next id; key 0 makes it the main banner (no parent), any other key
   * makes it a child of the main banner saved so far, if any.
   */
  function Place(nextId: int, files: seq<UploadedFile>, kind: string, main: Option<int>): (r: seq<Banner>)
    ensures |r| == |files|
    ensures forall i :: 0 <= i < |files| ==>
              r[i].id == nextId + i && r[i].image == files[i].path && r[i].kind == kind
    ensures forall i :: 0 <= i < |files| ==>
              r[i].parentId == (if files[i].key == 0 then None else MainAt(files, i, nextId, main))
    decreases |files|
  {
    if files == [] then []
    else
      var f := files[0];
      var nextMain := if f.key == 0 then Some(nextId) else main;
      var rest := Place(nextId + 1, files[1..], kind, nextMain);
      var r := [Banner(nextId, f.path, kind, if f.key == 0 then None else main)] + rest;
      assert forall i :: 1 <= i < |files| ==>
               r[i].parentId == (if files[i].key == 0 then None else MainAt(files, i, nextId, main)) by {
        forall i | 1 <= i < |files|
          ensures r[i].parentId == (if files[i].key == 0 then None else MainAt(files, i, nextId, main))
        {
          assert r[i] == rest[i - 1] && files[1..][i - 1] == files[i];
          MainAtShift(files, i, nextId, main);
        }
      }
      r
  }

  function Paths(files: seq<UploadedFile>): (p: seq<string>)
    ensures |p| == |files| && forall i :: 0 <= i < |files| ==> p[i] == files[i].path
  {
    seq(|files|, i requires 0 <= i < |files| => files[i].path)
  }

  /** The upload request's validation: at least one file, and a known type. */
  function UploadErrors(req: UploadRequest): (e: set<string>)
    ensures "banners" in e <==> req.files.None? || req.files.value == []
    ensures "type" in e <==> req.kind.None? || req.kind.value !in BannerTypes
    ensures e <= {"banners", "type"}
  {
    (if req.files.None? || req.files.value == [] then {"banners"} else {}) +
    (if req.kind.None? || req.kind.value !in BannerTypes then {"type"} else {})
  }

  /** `uploadBanners`: validate, then append one banner per file and return the stored paths in input order. */
  function Upload(s: Store, req: UploadRequest): (r: Result<Uploaded, Failure>)
    ensures r.Err? <==> UploadErrors(req) != {}
    ensures r.Err? ==> r.error == Invalid(UploadErrors(req))
    ensures r.Ok? ==> r.value.images == Paths(req.files.value)
    ensures r.Ok? ==> r.value.store.nextId == s.nextId + |req.files.value|
    ensures r.Ok? ==> r.value.store.rows == s.rows + Place(s.nextId, req.files.value, req.kind.value, None)
  {
    var errors := UploadErrors(req);
    if errors != {} then Err(Invalid(errors))
    else
      var files := req.files.value;
      Ok(Uploaded(Store(s.rows + Place(s.nextId, files, req.kind.value, None), s.nextId + |files|), Paths(files)))
  }

  /** An upload keeps ids distinct and below the counter. */
  lemma UploadKeepsWellFormed(s: Store, req: UploadRequest)
    requires WellFormed(s)
    ensures Upload(s, req).Ok? ==> WellFormed(Upload(s, req).value.store)
  {
  }

  /** An upload as the client sends it: a list, so the keys are 0, 1, 2, ... */
  predicate ListKeys(files: seq<UploadedFile>) {
    forall i :: 0 <= i < |files| ==> files[i].key == i
  }

  lemma {:induction false} ListMain(files: seq<UploadedFile>, i: nat, nextId: int)
    requires ListKeys(files) && 1 <= i <= |files|
    ensures MainAt(files, i, nextId, None) == Some(nextId)
  {
    if i > 1 {
      ListMain(files, i - 1, nextId);
    }
  }

  /**
   * A list upload makes the first file the main banner and every other file
   * its child, all of the requested type, with the stored paths returned in
   * order.
   */
  lemma ListUploadHierarchy(s: Store, files: seq<UploadedFile>, kind: string)
    requires files != [] && ListKeys(files) && kind in BannerTypes
    ensures var r := Upload(s, UploadRequest(Some(files), Some(kind)));
            r.Ok? && |r.value.store.rows| == |s.rows| + |files| && r.value.images == Paths(files) &&
            var added := r.value.store.rows[|s.rows|..];
            added[0].parentId.None? &&
            (forall i :: 1 <= i < |added| ==> added[i].parentId == Some(added[0].id)) &&
            (forall i :: 0 <= i < |added| ==> added[i].kind == kind)
  {
    var added := Place(s.nextId, files, kind, None);
    var r := Upload(s, UploadRequest(Some(files), Some(kind)));
    assert r.value.store.rows[|s.rows|..] == added;
    forall i | 1 <= i < |added| ensures added[i].parentId == Some(added[0].id) {
      ListMain(files, i, s.nextId);
    }
  }

  /** Banners without a parent. */
  function Roots(rows: seq<Banner>): nat {
    if rows == [] then 0 else (if rows[0].parentId.None? then 1 else 0) + Roots(rows[1..])
  }

  lemma {:induction false} RootsOfChildren(rows: seq<Banner>)
    requires forall i :: 0 <= i < |rows| ==> rows[i].parentId.Some?
    ensures Roots(rows) == 0
  {
    if rows != [] {
      RootsOfChildren(rows[1..]);
    }
  }

  /** A list upload of n files adds exactly one root and n - 1 children. */
  lemma ListUploadOneRoot(s: Store, files: seq<UploadedFile>, kind: string)
    requires files != [] && ListKeys(files) && kind in BannerTypes
    ensures var added := Upload(s, UploadRequest(Some(files), Some(kind))).value.store.rows[|s.rows|..];
            Roots(added) == 1 && |added| - Roots(added) == |files| - 1
  {
    ListUploadHierarchy(s, files, kind);
    var added := Upload(s, UploadRequest(Some(files), Some(kind))).value.store.rows[|s.rows|..];
    RootsOfChildren(added[1..]);
  }

  /** Keys need not start at 0: files before key 0 get no parent, because no main banner exists yet. */
  lemma FilesBeforeKeyZeroAreRoots()
    ensures var files := [UploadedFile(1, "a"), UploadedFile(0, "b"), UploadedFile(2, "c")];
            var added := Place(10, files, "default", None);
            added[0].parentId.None? && added[1].parentId.None? && added[2].parentId == Some(11)
  {
  }

  // ---- listing --------------------------------------------------------------

  /** `index`: every banner, or those whose type equals the requested one. */
  function Index(s: Store, kind: Option<string>): (r: seq<Banner>)
    ensures kind.None? ==> r == s.rows
    ensures kind.Some? ==> forall b :: b in r <==> b in s.rows && b.kind == kind.value
    ensures Seqs.IsSubsequence(r, s.rows)
  {
    match kind
    case None => Seqs.FilterKeepsAll(s.rows, (b: Banner) => true); s.rows
    case Some(t) => Seqs.Filter(s.rows, (b: Banner) => b.kind == t)
  }

  /** Filtering by a type outside the known ones gives an empty list, since every stored type is known. */
  lemma IndexUnknownTypeEmpty(s: Store, t: string)
    requires WellFormed(s) && t !in BannerTypes
    ensures Index(s, Some(t)) == []
  {
  }

  // ---- update ---------------------------------------------------------------

  /**
   * The update form's fields, `None` when omitted: `image` is the stored
   * path of the new file, `kind` and `bannerId` the `type` and `banner_id`
   * values as received.
   */
  datatype UpdateRequest = UpdateRequest(image: Option<string>, kind: Option<Json.Value>, bannerId: Option<Json.Value>)

  const UpdateFields := ["type", "banner_id"]

  /**
   * The update's rules, `string|in:…` for the type and `integer` for the
   * parent; neither is required, so an omitted field is not checked.
   */
  predicate UpdateFieldValid(req: UpdateRequest, key: string) {
    if key == "type" then req.kind.None? || (req.kind.value.Str? && req.kind.value.s in BannerTypes)
    else req.bannerId.None? || Validation.IntegerValue(req.bannerId.value).Some?
  }

  /**
   * `update`: every failing rule is reported together. The action then
   * reads the banner and all three fields unconditionally, so a missing
   * banner or an omitted field is a server error (the framework turns the
   * null-property and undefined-key warnings into exceptions). Otherwise
   * image, type and parent are replaced and nothing else changes; the
   * parent is the integer the rule reads.
   */
  function Update(s: Store, id: int, req: UpdateRequest): (r: Result<Store, Failure>)
    ensures (r.Err? && r.error.Invalid?) <==> exists k :: k in UpdateFields && !UpdateFieldValid(req, k)
    ensures r.Err? && r.error.Invalid? ==> forall k :: k in r.error.fields <==> k in UpdateFields && !UpdateFieldValid(req, k)
    ensures r.Ok? <==> (forall k :: k in UpdateFields ==> UpdateFieldValid(req, k)) &&
                       req.image.Some? && req.kind.Some? && req.bannerId.Some? &&
                       exists i :: 0 <= i < |s.rows| && s.rows[i].id == id
    ensures r.Ok? ==> r.value.nextId == s.nextId && |r.value.rows| == |s.rows|
    ensures r.Ok? ==> req.kind.value.Str? && Validation.IntegerValue(req.bannerId.value).Some? &&
                      forall i :: 0 <= i < |s.rows| ==>
                        r.value.rows[i] == (if s.rows[i].id == id
                                            then Banner(id, req.image.value, req.kind.value.s, Validation.IntegerValue(req.bannerId.value))
                                            else s.rows[i])
  {
    var errors := Validation.Failing(UpdateFields, (k: string) => UpdateFieldValid(req, k));
    if errors != {} then Err(Invalid(errors))
    else if !(exists i :: 0 <= i < |s.rows| && s.rows[i].id == id) then Err(ServerError)
    else if req.image.None? || req.kind.None? || req.bannerId.None? then Err(ServerError)
    else
      assert UpdateFieldValid(req, UpdateFields[0]) && UpdateFieldValid(req, UpdateFields[1]);
      var row := Banner(id, req.image.value, req.kind.value.s, Validation.IntegerValue(req.bannerId.value));
      Ok(Store(seq(|s.rows|, i requires 0 <= i < |s.rows| => if s.rows[i].id == id then row else s.rows[i]), s.nextId))
  }

  /** A parent id that is not an integer is refused alongside an unknown type, whatever the store holds. */
  lemma UpdateReportsBothFields(s: Store, id: int, image: Option<string>)
    ensures Update(s, id, UpdateRequest(image, Some(Json.Str("huge")), Some(Json.Str("abc")))) == Err(Invalid({"type", "banner_id"}))
  {
    var req := UpdateRequest(image, Some(Json.Str("huge")), Some(Json.Str("abc")));
    assert !UpdateFieldValid(req, "type");
    assert Validation.IntegerValue(Json.Str("abc")) == None by {
      assert Validation.StripStart("abc") == "abc";
      assert Validation.StripEnd("abc") == "abc";
      assert !Validation.CanonicalDigits(Text.Unsigned("abc")) by {
        assert Text.Unsigned("abc") == "abc";
        assert !Text.IsDigit('a');
      }
    }
    var r := Update(s, id, req);
    assert r.Err? && r.error.Invalid?;
    assert r.error.fields == {"type", "banner_id"};
  }

  /** An update keeps ids distinct and below the counter, and touches no other banner. */
  lemma UpdateKeepsWellFormed(s: Store, id: int, req: UpdateRequest)
    requires WellFormed(s)
    ensures Update(s, id, req).Ok? ==> WellFormed(Update(s, id, req).value)
  {
  }

  /** The type-filter scenario: two mobile uploads and one desktop upload list two mobile banners. */
  lemma TypeFilterScenario(p1: string, p2: string, p3: string)
    ensures var s0 := Store([], 1);
            var s1 := Upload(s0, UploadRequest(Some([UploadedFile(0, p1)]), Some("mobile"))).value.store;
            var s2 := Upload(s1, UploadRequest(Some([UploadedFile(0, p2)]), Some("desktop"))).value.store;
            var s3 := Upload(s2, UploadRequest(Some([UploadedFile(0, p3)]), Some("mobile"))).value.store;
            |Index(s3, Some("mobile"))| == 2 && |Index(s3, Some("desktop"))| == 1
  {
    var s0 := Store([], 1);
    UploadOne(s0, p1, "mobile");
    var s1 := Upload(s0, UploadRequest(Some([UploadedFile(0, p1)]), Some("mobile"))).value.store;
    UploadOne(s1, p2, "desktop");
    var s2 := Upload(s1, UploadRequest(Some([UploadedFile(0, p2)]), Some("desktop"))).value.store;
    UploadOne(s2, p3, "mobile");
    var s3 := Upload(s2, UploadRequest(Some([UploadedFile(0, p3)]), Some("mobile"))).value.store;
    var b1, b2, b3 := Banner(1, p1, "mobile", None), Banner(2, p2, "desktop", None), Banner(3, p3, "mobile", None);
    assert s3.rows == [b1, b2, b3];
    ThreeRowsByType(b1, b2, b3);
  }

  /** A one-file upload under key 0 appends one main banner with the next id. */
  lemma UploadOne(s: Store, path: string, kind: string)
    requires kind in BannerTypes
    ensures var r := Upload(s, UploadRequest(Some([UploadedFile(0, path)]), Some(kind)));
            r.Ok? && r.value.store == Store(s.rows + [Banner(s.nextId, path, kind, None)], s.nextId + 1)
  {
    var placed := Place(s.nextId, [UploadedFile(0, path)], kind, None);
    assert placed == [Banner(s.nextId, path, kind, None)];
  }

  lemma ThreeRowsByType(b1: Banner, b2: Banner, b3: Banner)
    requires b1.kind == "mobile" && b2.kind == "desktop" && b3.kind == "mobile"
    ensures |Index(Store([b1, b2, b3], 4), Some("mobile"))| == 2
    ensures |Index(Store([b1, b2, b3], 4), Some("desktop"))| == 1
  {
    assert [b1, b2, b3][1..] == [b2, b3];
    assert [b2, b3][1..] == [b3];
    assert [b3][1..] == [];
    var mobile := (b: Banner) => b.kind == "mobile";
    var desktop := (b: Banner) => b.kind == "desktop";
    assert Seqs.Filter([b3], mobile) == [b3];
    assert Seqs.Filter([b2, b3], mobile) == [b3];
    assert Seqs.Filter([b1, b2, b3], mobile) == [b1, b3];
    assert Seqs.Filter([b3], desktop) == [];
    assert Seqs.Filter([b2, b3], desktop) == [b2];
    assert Seqs.Filter([b1, b2, b3], desktop) == [b2];
  }
}
