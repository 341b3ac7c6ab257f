/**
 * The menu-item endpoints: listing and lookup with the derived image URL,
 * creation, the overwrite of the descriptive fields, removal, and the rule
 * that names an uploaded image file. Writing and deleting the files
 * themselves is outside the model; the upload's time stamp is a parameter.
 */
module MenuItemController {
  import opened Wrappers
  import opened Data

  // ---------------------------------------------------------------- image URL

  /** The scheme and host of the request being answered. */
  datatype RequestInfo = RequestInfo(scheme: string, host: string)

  const UploadsPath: string := "/uploads/"

  function ImageSrc(req: RequestInfo, image: string): string {
    req.scheme + "://" + req.host + UploadsPath + image
  }

  function WithImageSrc(req: RequestInfo, m: MenuItem): MenuItem {
    m.(imageSrc := ImageSrc(req, m.image))
  }

  /** The URL is the same prefix for every item, followed by the stored file name, which it gives back. */
  lemma ImageSrcParts(req: RequestInfo, image: string)
    ensures var prefix := req.scheme + "://" + req.host + "/uploads/";
            var u := ImageSrc(req, image);
            && |u| == |prefix| + |image|
            && u[..|prefix|] == prefix
            && u[|prefix|..] == image
  {
    var prefix := req.scheme + "://" + req.host + "/uploads/";
    assert ImageSrc(req, image) == prefix + image;
  }

  // ---------------------------------------------------------------- reads

  /** Position of the row with the given id (`FindAsync`, `FirstOrDefaultAsync`). */
  function FindMenuItem(s: seq<MenuItem>, id: int): (r: Option<nat>)
    ensures r.Some? ==> r.value < |s| && s[r.value].id == id
    ensures r.None? <==> id !in MenuItemIds(s)
  {
    if s == [] then None
    else if s[0].id == id then Some(0)
    else match FindMenuItem(s[1..], id)
      case None =>
        assert MenuItemIds(s) == {s[0].id} + MenuItemIds(s[1..]) by {
          assert forall m :: m in s <==> m == s[0] || m in s[1..];
        }
        None
      case Some(k) => Some(k + 1)
  }

  /**
   * `GET api/MenuItem`: every row of the table, in table order, with its
   * image URL filled in and every stored field as it is.
   */
  method GetMenuItems(db: AppDb, req: RequestInfo) returns (resp: ActionResult<seq<MenuItem>>)
    ensures resp.http == StatusOk && resp.body.statusCode == StatusOk && resp.body.isSuccess
    ensures resp.body.result.Some?
    ensures var items := resp.body.result.value;
            && |items| == |db.menuItems|
            && forall i :: 0 <= i < |items| ==>
                 && items[i].imageSrc == ImageSrc(req, db.menuItems[i].image)
                 && items[i].(imageSrc := db.menuItems[i].imageSrc) == db.menuItems[i]
  {
    var menuItems := db.menuItems;
    var listed: seq<MenuItem> := [];
    for i := 0 to |menuItems|
      invariant |listed| == i
      invariant forall k :: 0 <= k < i ==> listed[k] == WithImageSrc(req, menuItems[k])
    {
      listed := listed + [WithImageSrc(req, menuItems[i])];
    }
    resp := ActionResult(StatusOk, ApiResponse(StatusOk, true, [], Some(listed)));
  }

  /** `GET api/MenuItem/{id}`. */
  function GetMenuItem(items: seq<MenuItem>, req: RequestInfo, id: int): ActionResult<MenuItem> {
    if id == 0 then ActionResult(StatusBadRequest, ApiResponse(StatusBadRequest, false, [], None))
    else match FindMenuItem(items, id)
      case None => ActionResult(StatusNotFound, ApiResponse(StatusNotFound, false, [], None))
      case Some(k) => ActionResult(StatusOk, ApiResponse(StatusOk, true, [], Some(WithImageSrc(req, items[k]))))
  }

  /**
   * Id 0 is refused with 400 and an unknown id gives 404; otherwise the
   * answer is 200 with the one row of that id and its image URL.
   */
  lemma GetMenuItemSpec(items: seq<MenuItem>, req: RequestInfo, id: int)
    requires forall i, j :: 0 <= i < j < |items| ==> items[i].id != items[j].id
    ensures var r := GetMenuItem(items, req, id);
            && (id == 0 ==> r.http == StatusBadRequest && !r.body.isSuccess)
            && (id != 0 && id !in MenuItemIds(items) ==> r.http == StatusNotFound && !r.body.isSuccess)
            && (r.http == StatusOk <==> id != 0 && id in MenuItemIds(items))
            && (r.http == StatusOk ==>
                  && r.body.isSuccess && r.body.result.Some?
                  && r.body.result.value.id == id
                  && r.body.result.value.imageSrc == ImageSrc(req, r.body.result.value.image)
                  && forall m :: m in items && m.id == id ==> r.body.result.value == WithImageSrc(req, m))
  {
    var r := GetMenuItem(items, req, id);
    if id != 0 && id in MenuItemIds(items) {
      var k := FindMenuItem(items, id).value;
      forall m | m in items && m.id == id
        ensures r.body.result.value == WithImageSrc(req, m)
      {
        var j :| 0 <= j < |items| && items[j] == m;
        assert j == k;
      }
    }
  }

  // ---------------------------------------------------------------- upload file name

  /** A directory separator as .NET's path functions see it on Windows; on Linux only `/` is one. */
  predicate IsSeparator(c: char) {
    c == '/' || c == '\\'
  }

  /** Position of the last `c` in `s`. */
  function LastIndexOf(s: string, c: char): (r: Option<nat>)
    ensures r.Some? ==> r.value < |s| && s[r.value] == c && forall j :: r.value < j < |s| ==> s[j] != c
    ensures r.None? ==> forall j :: 0 <= j < |s| ==> s[j] != c
  {
    if s == [] then None
    else if s[|s| - 1] == c then Some(|s| - 1)
    else LastIndexOf(s[..|s| - 1], c)
  }

  /** Position of the last directory separator in `s`. */
  function LastSeparator(s: string): (r: Option<nat>)
    ensures r.Some? ==> r.value < |s| && IsSeparator(s[r.value]) && forall j :: r.value < j < |s| ==> !IsSeparator(s[j])
    ensures r.None? ==> forall j :: 0 <= j < |s| ==> !IsSeparator(s[j])
  {
    if s == [] then None
    else if IsSeparator(s[|s| - 1]) then Some(|s| - 1)
    else LastSeparator(s[..|s| - 1])
  }

  /** `Path.GetFileName`: what follows the last separator. */
  function FileName(path: string): string {
    match LastSeparator(path)
    case None => path
    case Some(k) => path[k + 1..]
  }

  /** `Path.GetFileNameWithoutExtension`: the file name up to its last dot. */
  function FileNameWithoutExtension(path: string): string {
    var name := FileName(path);
    match LastIndexOf(name, '.')
    case None => name
    case Some(k) => name[..k]
  }

  /** `Path.GetExtension`: from the file name's last dot on, or nothing when that dot ends the name. */
  function Extension(path: string): string {
    var name := FileName(path);
    match LastIndexOf(name, '.')
    case None => ""
    case Some(k) => if k == |name| - 1 then "" else name[k..]
  }

  const MaxStemLength: nat := 10

  function ReplaceSpaces(s: string): string {
    seq(|s|, i requires 0 <= i < |s| => if s[i] == ' ' then '-' else s[i])
  }

  /** `Take(10)` on the name without extension, then spaces become dashes. */
  function StoredStem(fileName: string): string {
    var stem := FileNameWithoutExtension(fileName);
    ReplaceSpaces(stem[..if |stem| < MaxStemLength then |stem| else MaxStemLength])
  }

  /** The name an uploaded file is stored under, for a given time stamp. */
  function StoredFileName(fileName: string, stamp: string): string {
    StoredStem(fileName) + stamp + Extension(fileName)
  }

  lemma FileNameHasNoSeparator(path: string)
    ensures forall j :: 0 <= j < |FileName(path)| ==> !IsSeparator(FileName(path)[j])
    ensures |FileName(path)| <= |path|
  {
  }

  /**
   * The stored name is the upload's name without extension, cut to its
   * first ten characters with every space turned into a dash, then the
   * time stamp, then the upload's extension.
   */
  lemma StoredFileNameShape(fileName: string, stamp: string)
    ensures var stem := FileNameWithoutExtension(fileName);
            var p := StoredStem(fileName);
            && StoredFileName(fileName, stamp) == p + stamp + Extension(fileName)
            && |p| == (if |stem| < 10 then |stem| else 10)
            && (forall i :: 0 <= i < |p| ==> p[i] == (if stem[i] == ' ' then '-' else stem[i]))
            && (forall i :: 0 <= i < |p| ==> p[i] != ' ' && !IsSeparator(p[i]))
  {
    FileNameHasNoSeparator(fileName);
  }

  /** The name without extension and the extension make up the file name again, unless it ends with a dot. */
  lemma {:induction false} StemAndExtension(path: string)
    requires FileName(path) == [] || FileName(path)[|FileName(path)| - 1] != '.'
    ensures FileNameWithoutExtension(path) + Extension(path) == FileName(path)
  {
    var name := FileName(path);
    match LastIndexOf(name, '.')
    case None =>
    case Some(k) =>
      assert name[..k] + name[k..] == name;
  }

  lemma LastIndexOfIs(s: string, c: char, k: nat)
    requires k < |s| && s[k] == c
    requires forall j :: k < j < |s| ==> s[j] != c
    ensures LastIndexOf(s, c) == Some(k)
  {
    var r := LastIndexOf(s, c);
    assert r.Some? by { assert s[k] == c; }
    assert !(r.value < k) by { assert s[r.value] == c; }
  }

  /** A non-empty extension is a dot followed by at least one character, none of them a dot or a separator. */
  lemma ExtensionShape(path: string)
    requires Extension(path) != ""
    ensures var e := Extension(path);
            && |e| >= 2 && e[0] == '.'
            && (forall j :: 0 < j < |e| ==> e[j] != '.')
            && (forall j :: 0 <= j < |e| ==> !IsSeparator(e[j]))
  {
    var name := FileName(path);
    FileNameHasNoSeparator(path);
    var k := LastIndexOf(name, '.').value;
    assert Extension(path) == name[k..];
  }

  /** A name without separators that ends in such an extension has exactly that extension. */
  lemma ExtensionOfSuffix(s: string, e: string)
    requires |e| >= 2 && e[0] == '.' && (forall j :: 0 < j < |e| ==> e[j] != '.')
    requires |e| <= |s| && s[|s| - |e|..] == e
    requires forall j :: 0 <= j < |s| ==> !IsSeparator(s[j])
    ensures FileName(s) == s
    ensures Extension(s) == e
  {
    var d := |s| - |e|;
    assert s[d] == e[0];
    forall j | d < j < |s|
      ensures s[j] != '.'
    {
      assert s[j] == e[j - d];
    }
    LastIndexOfIs(s, '.', d);
  }

  /**
   * A file with an extension keeps it: the stored name has no directory part
   * and ends with the same extension, given a time stamp of digits (as the
   * `yymmssfff` format produces).
   */
  lemma StoredFileNameKeepsExtension(fileName: string, stamp: string)
    requires Extension(fileName) != ""
    requires forall i :: 0 <= i < |stamp| ==> '0' <= stamp[i] <= '9'
    ensures FileName(StoredFileName(fileName, stamp)) == StoredFileName(fileName, stamp)
    ensures Extension(StoredFileName(fileName, stamp)) == Extension(fileName)
  {
    var ext := Extension(fileName);
    ExtensionShape(fileName);
    StoredFileNameShape(fileName, stamp);
    var p := StoredStem(fileName);
    var stored := StoredFileName(fileName, stamp);
    assert stored == (p + stamp) + ext;
    assert stored[|stored| - |ext|..] == ext;
    forall j | 0 <= j < |stored|
      ensures !IsSeparator(stored[j])
    {
      if j < |p| {
        assert stored[j] == p[j];
      } else if j < |p| + |stamp| {
        assert stored[j] == stamp[j - |p|];
      } else {
        assert stored[j] == ext[j - |p| - |stamp|];
      }
    }
    ExtensionOfSuffix(stored, ext);
  }

  // ---------------------------------------------------------------- writes

  datatype MenuItemCreateDto = MenuItemCreateDto(name: string, description: string, specialTag: string, category: string, price: real)

  datatype MenuItemUpdateDto = MenuItemUpdateDto(id: int, name: string, description: string, specialTag: string, category: string, price: real)

  /** An uploaded image: the client's file name and the time stamp of the upload. */
  datatype Upload = Upload(fileName: string, stamp: string)

  /** The default envelope with the failure flag set and, when a fault occurred, its text. */
  function Refused<T>(fault: Option<string>): ActionResult<T> {
    ActionResult(StatusBadRequest, ApiResponse(StatusDefault, false, if fault.Some? then [fault.value] else [], None))
  }

  /** The five descriptive fields; the image only when a file came with the request. */
  function NewMenuItem(dto: MenuItemCreateDto, id: int, file: Option<Upload>): MenuItem {
    MenuItem(id, dto.name, dto.description, dto.specialTag, dto.category, dto.price,
             if file.Some? then StoredFileName(file.value.fileName, file.value.stamp) else "", "")
  }

  /**
   * `POST api/MenuItem`: an invalid model, or an exception while saving the
   * file or the row (`fault`), answers 400 and adds nothing; otherwise the
   * new row gets the next id and is returned with 201.
   */
  method CreateMenuItem(db: AppDb, dto: MenuItemCreateDto, modelStateValid: bool, file: Option<Upload>, fault: Option<string>)
    returns (resp: ActionResult<MenuItem>)
    requires db.Valid()
    modifies db`menuItems, db`nextMenuItemId
    ensures db.Valid()
    ensures !modelStateValid || fault.Some? ==>
              && resp == Refused(if modelStateValid then fault else None)
              && db.menuItems == old(db.menuItems) && db.nextMenuItemId == old(db.nextMenuItemId)
    ensures modelStateValid && fault.None? ==>
              var created := NewMenuItem(dto, old(db.nextMenuItemId), file);
              && db.menuItems == old(db.menuItems) + [created]
              && db.nextMenuItemId == old(db.nextMenuItemId) + 1
              && created.id !in MenuItemIds(old(db.menuItems))
              && resp == ActionResult(StatusCreated, ApiResponse(StatusCreated, true, [], Some(created)))
  {
    if !modelStateValid {
      return Refused(None);
    }
    if fault.Some? {
      return Refused(fault);
    }
    var menuItemToCreate := NewMenuItem(dto, db.nextMenuItemId, file);
    db.menuItems := db.menuItems + [menuItemToCreate];
    db.nextMenuItemId := db.nextMenuItemId + 1;
    resp := ActionResult(StatusCreated, ApiResponse(StatusCreated, true, [], Some(menuItemToCreate)));
  }

  /** The five descriptive fields overwritten; the image replaced only when a file came with the request. */
  function ApplyMenuUpdate(m: MenuItem, dto: MenuItemUpdateDto, file: Option<Upload>): MenuItem {
    m.(name := dto.name, price := dto.price, category := dto.category, specialTag := dto.specialTag,
       description := dto.description,
       image := if file.Some? then StoredFileName(file.value.fileName, file.value.stamp) else m.image)
  }

  /**
   * `PUT api/MenuItem/{id}`: an invalid model answers 400, as does a route
   * id that differs from the body's; an unknown id answers 404; an exception
   * answers 400 and changes nothing; otherwise that one row is overwritten
   * and the answer is HTTP 200 carrying status 204 in its body.
   */
  method UpdateMenuItem(db: AppDb, id: int, dto: MenuItemUpdateDto, modelStateValid: bool, file: Option<Upload>, fault: Option<string>)
    returns (resp: ActionResult<MenuItem>)
    requires db.Valid()
    modifies db`menuItems
    ensures db.Valid()
    ensures !modelStateValid ==> resp == Refused(None) && db.menuItems == old(db.menuItems)
    ensures modelStateValid && id != dto.id ==>
              resp == ActionResult(StatusBadRequest, ApiResponse(StatusBadRequest, false, [], None))
              && db.menuItems == old(db.menuItems)
    ensures modelStateValid && id == dto.id && id !in MenuItemIds(old(db.menuItems)) ==>
              resp == ActionResult(StatusNotFound, ApiResponse(StatusNotFound, false, [], None))
              && db.menuItems == old(db.menuItems)
    ensures modelStateValid && id == dto.id && id in MenuItemIds(old(db.menuItems)) && fault.Some? ==>
              resp == Refused(fault) && db.menuItems == old(db.menuItems)
    ensures modelStateValid && id == dto.id && id in MenuItemIds(old(db.menuItems)) && fault.None? ==>
              var k := FindMenuItem(old(db.menuItems), id).value;
              && db.menuItems == old(db.menuItems)[k := ApplyMenuUpdate(old(db.menuItems)[k], dto, file)]
              && resp == ActionResult(StatusOk, ApiResponse(StatusNoContent, true, [], None))
  {
    if !modelStateValid {
      return Refused(None);
    }
    if id != dto.id {
      return ActionResult(StatusBadRequest, ApiResponse(StatusBadRequest, false, [], None));
    }
    var found := FindMenuItem(db.menuItems, id);
    if found.None? {
      return ActionResult(StatusNotFound, ApiResponse(StatusNotFound, false, [], None));
    }
    if fault.Some? {
      return Refused(fault);
    }
    var k := found.value;
    var menuItemFromDb := ApplyMenuUpdate(db.menuItems[k], dto, file);
    db.menuItems := db.menuItems[k := menuItemFromDb];
    resp := ActionResult(StatusOk, ApiResponse(StatusNoContent, true, [], None));
  }

  /** The update changes only the five descriptive fields and, with a file, the image; id and URL stay. */
  lemma MenuUpdateFields(m: MenuItem, dto: MenuItemUpdateDto, file: Option<Upload>)
    ensures var r := ApplyMenuUpdate(m, dto, file);
            && r.id == m.id && r.imageSrc == m.imageSrc
            && r.name == dto.name && r.description == dto.description && r.specialTag == dto.specialTag
            && r.category == dto.category && r.price == dto.price
            && (file.None? ==> r.image == m.image && ApplyMenuUpdate(r, dto, file) == r)
            && (file.Some? ==> r.image == StoredFileName(file.value.fileName, file.value.stamp))
  {
  }

  function RemoveAt(s: seq<MenuItem>, k: nat): seq<MenuItem>
    requires k < |s|
  {
    s[..k] + s[k + 1..]
  }

  lemma RemoveAtIndex(s: seq<MenuItem>, k: nat)
    requires k < |s|
    ensures |RemoveAt(s, k)| == |s| - 1
    ensures forall i :: 0 <= i < |s| - 1 ==> RemoveAt(s, k)[i] == s[if i < k then i else i + 1]
  {
  }

  /** Removing the row at `k` keeps the ids positive, distinct and below the counter. */
  lemma RemoveAtValid(s: seq<MenuItem>, k: nat, next: int)
    requires k < |s| && MenuIdsValid(s, next)
    ensures MenuIdsValid(RemoveAt(s, k), next)
  {
    RemoveAtIndex(s, k);
  }

  /** Removing the row at `k` keeps exactly the rows with another id, in order. */
  lemma RemoveAtSpec(s: seq<MenuItem>, k: nat, next: int)
    requires k < |s| && MenuIdsValid(s, next)
    ensures MenuIdsValid(RemoveAt(s, k), next)
    ensures forall m :: m in RemoveAt(s, k) <==> m in s && m.id != s[k].id
    ensures MenuItemIds(RemoveAt(s, k)) == MenuItemIds(s) - {s[k].id}
    ensures |RemoveAt(s, k)| == |s| - 1
  {
    RemoveAtValid(s, k, next);
    RemoveAtIndex(s, k);
    var r := RemoveAt(s, k);
    forall m | m in s && m.id != s[k].id
      ensures m in r
    {
      var j :| 0 <= j < |s| && s[j] == m;
      assert r[if j < k then j else j - 1] == m;
    }
    forall m | m in r
      ensures m in s && m.id != s[k].id
    {
      var j :| 0 <= j < |r| && r[j] == m;
      assert m == s[if j < k then j else j + 1];
    }
  }

  /**
   * `DELETE api/MenuItem/{id}`: id 0 answers 400, an unknown id 404, an
   * exception 400 with no change; otherwise exactly the row with that id is
   * removed and the others stay, in order.
   */
  method DeleteMenuItem(db: AppDb, id: int, fault: Option<string>) returns (resp: ActionResult<MenuItem>)
    requires db.Valid()
    modifies db`menuItems
    ensures db.Valid()
    ensures id == 0 ==>
              resp == ActionResult(StatusBadRequest, ApiResponse(StatusBadRequest, false, [], None))
              && db.menuItems == old(db.menuItems)
    ensures id != 0 && id !in MenuItemIds(old(db.menuItems)) ==>
              resp == ActionResult(StatusNotFound, ApiResponse(StatusNotFound, false, [], None))
              && db.menuItems == old(db.menuItems)
    ensures id != 0 && id in MenuItemIds(old(db.menuItems)) && fault.Some? ==>
              resp == Refused(fault) && db.menuItems == old(db.menuItems)
    ensures id != 0 && id in MenuItemIds(old(db.menuItems)) && fault.None? ==>
              && db.menuItems == RemoveAt(old(db.menuItems), FindMenuItem(old(db.menuItems), id).value)
              && (forall m :: m in db.menuItems <==> m in old(db.menuItems) && m.id != id)
              && MenuItemIds(db.menuItems) == MenuItemIds(old(db.menuItems)) - {id}
              && |db.menuItems| == |old(db.menuItems)| - 1
              && resp == ActionResult(StatusOk, ApiResponse(StatusNoContent, true, [], None))
  {
    if id == 0 {
      return ActionResult(StatusBadRequest, ApiResponse(StatusBadRequest, false, [], None));
    }
    var found := FindMenuItem(db.menuItems, id);
    if found.None? {
      return ActionResult(StatusNotFound, ApiResponse(StatusNotFound, false, [], None));
    }
    if fault.Some? {
      return Refused(fault);
    }
    var k := found.value;
    RemoveAtSpec(db.menuItems, k, db.nextMenuItemId);
    db.menuItems := RemoveAt(db.menuItems, k);
    resp := ActionResult(StatusOk, ApiResponse(StatusNoContent, true, [], None));
  }
}
