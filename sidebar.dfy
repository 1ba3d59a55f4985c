/** The city sidebar (src/components/Sidebar.jsx): the record of photo slots,
    one per category, that the panel keeps for the city it shows; choosing a
    file for a slot; uploading the chosen files and saving the city; the
    rewrite of a Cloudinary address to the original image; and the star line
    of the rating. The upload service is a parameter that answers each
    request. */
module Sidebar {
  import opened Js
  import opened JsObject

  datatype Category = Category(id: string, name: string)

  /** PHOTO_CATEGORIES, in upload order. */
  const PhotoCategories: seq<Category> :=
    [Category("scenery", "风景"), Category("friends", "朋友"),
     Category("food", "美食"), Category("lover", "恋人")]

  function Ids(cats: seq<Category>): seq<string> {
    seq(|cats|, i requires 0 <= i < |cats| => cats[i].id)
  }

  predicate DistinctIds(cats: seq<Category>) {
    forall i, j :: 0 <= i < j < |cats| ==> cats[i].id != cats[j].id
  }

  lemma PhotoCategoriesDistinct()
    ensures DistinctIds(PhotoCategories)
    ensures Ids(PhotoCategories) == ["scenery", "friends", "food", "lover"]
  {
  }

  /** A chosen file: its name and its MIME type (`file.type`). */
  datatype File = File(name: string, mimeType: string)

  /** A value of the photos record: a slot `{url, file}`, or the string under `cityName`. */
  datatype Value = Slot(url: Option<string>, file: Option<File>) | Name(name: string)

  /** One stored photo of a city. */
  datatype Photo = Photo(category: string, photoUrl: Option<string>)

  /** The `cityData` prop: the city's name, its stored record and whether it is visited. */
  datatype CityData = CityData(name: string, visitDate: Option<string>, photos: Option<seq<Photo>>,
                               comment: Option<string>, rating: Option<int>, isVisited: bool)

  // ---------------------------------------------------------------------
  // The photos record

  function PhotoPairs(ps: seq<Photo>): seq<(string, Value)> {
    seq(|ps|, i requires 0 <= i < |ps| => (ps[i].category, Slot(ps[i].photoUrl, None)))
  }

  function StoredPhotos(city: CityData): seq<Photo> {
    if city.photos.Some? then city.photos.value else []
  }

  /** The record rebuilt from the stored photos, tagged with the city's name. */
  function FreshRecord(city: CityData): Entries<Value> {
    Set(FromPairs(PhotoPairs(StoredPhotos(city))), "cityName", Name(city.name))
  }

  /** The reducer's test: the record is empty or belongs to another city. */
  predicate NeedsRebuild(prev: Entries<Value>, city: CityData) {
    prev == [] || Get(prev, "cityName") != Some(Name(city.name))
  }

  /** The `setPhotos` reducer of the effect on `cityData`. */
  function Reduced(prev: Entries<Value>, city: CityData): Entries<Value> {
    if NeedsRebuild(prev, city) then FreshRecord(city) else prev
  }

  /** The slot of the last stored photo in category `k`. */
  function LastPhoto(ps: seq<Photo>, k: string): Option<Value> {
    if ps == [] then None
    else if ps[|ps| - 1].category == k then Some(Slot(ps[|ps| - 1].photoUrl, None))
    else LastPhoto(ps[..|ps| - 1], k)
  }

  function PhotoCategoriesOf(ps: seq<Photo>): seq<string> {
    seq(|ps|, i requires 0 <= i < |ps| => ps[i].category)
  }

  lemma {:induction false} LastPhotoIsLastValue(ps: seq<Photo>, k: string)
    ensures LastValue(PhotoPairs(ps), k) == LastPhoto(ps, k)
  {
    if ps != [] {
      LastPhotoIsLastValue(ps[..|ps| - 1], k);
      assert PhotoPairs(ps)[..|ps| - 1] == PhotoPairs(ps[..|ps| - 1]);
    }
  }

  /** A rebuilt record has one slot per stored category, holding the last
      photo of that category with no file, and `cityName` set to the city;
      its keys are distinct. */
  lemma FreshRecordSpec(city: CityData, k: string)
    ensures DistinctKeys(FreshRecord(city))
    ensures Get(FreshRecord(city), "cityName") == Some(Name(city.name))
    ensures k != "cityName" ==> Get(FreshRecord(city), k) == LastPhoto(StoredPhotos(city), k)
    ensures var cs := FirstOccurrences(PhotoCategoriesOf(StoredPhotos(city)));
            Keys(FreshRecord(city)) == if "cityName" in cs then cs else cs + ["cityName"]
  {
    var ps := PhotoPairs(StoredPhotos(city));
    FromPairsKeys(ps);
    FromPairsGet(ps, k);
    LastPhotoIsLastValue(StoredPhotos(city), k);
    assert Keys(ps) == PhotoCategoriesOf(StoredPhotos(city));
    SetSpec(FromPairs(ps), "cityName", Name(city.name));
  }

  /** The reducer rebuilds exactly when the record is empty or tagged with
      another city, and keeps it untouched otherwise; running it again for
      the same city changes nothing. */
  lemma ReducedSpec(prev: Entries<Value>, city: CityData)
    ensures NeedsRebuild(prev, city) ==> Reduced(prev, city) == FreshRecord(city)
    ensures !NeedsRebuild(prev, city) ==> Reduced(prev, city) == prev
    ensures Get(Reduced(prev, city), "cityName") == Some(Name(city.name))
    ensures Reduced(Reduced(prev, city), city) == Reduced(prev, city)
  {
    FreshRecordSpec(city, "cityName");
    if NeedsRebuild(prev, city) {
      assert Get(FreshRecord(city), "cityName").Some?;
      GetDefinedIff(FreshRecord(city), "cityName");
    }
  }

  // ---------------------------------------------------------------------
  // Choosing a file

  /** `file && file.type.startsWith('image/')`. */
  predicate Accepts(file: Option<File>) {
    file.Some? && StartsWith(file.value.mimeType, "image/")
  }

  /** The `url` of `{ ...prev[c] }`: absent unless the value is a slot. */
  function UrlOf(v: Option<Value>): Option<string> {
    if v.Some? && v.value.Slot? then v.value.url else None
  }

  /** `{ ...prev, [c]: { ...prev[c], file } }`. */
  function WithFile(o: Entries<Value>, c: string, f: File): Entries<Value> {
    Set(o, c, Slot(UrlOf(Get(o, c)), Some(f)))
  }

  /** Choosing a file puts it in the named slot and keeps that slot's url;
      every other entry keeps its value, and the keys keep their order (a
      new slot goes last). */
  lemma WithFileSpec(o: Entries<Value>, c: string, f: File)
    ensures Get(WithFile(o, c, f), c) == Some(Slot(UrlOf(Get(o, c)), Some(f)))
    ensures forall k :: k != c ==> Get(WithFile(o, c, f), k) == Get(o, k)
    ensures Keys(WithFile(o, c, f)) == if c in Keys(o) then Keys(o) else Keys(o) + [c]
    ensures DistinctKeys(o) ==> DistinctKeys(WithFile(o, c, f))
  {
    SetSpec(o, c, Slot(UrlOf(Get(o, c)), Some(f)));
  }

  // ---------------------------------------------------------------------
  // Uploading

  /** What the upload service answers: a JSON body with `secure_url` and
      `error.message`, either of which may be missing, or an exception. */
  datatype UploadReply = Answered(secureUrl: Option<string>, errorMessage: Option<string>) | Threw(message: string)

  predicate Succeeded(reply: UploadReply) {
    reply.Answered? && Truthy(reply.secureUrl)
  }

  /** `data.secure_url`; an exception carries none. */
  function SecureUrl(reply: UploadReply): Option<string> {
    if reply.Answered? then reply.secureUrl else None
  }

  /** The message shown for a failed upload. */
  function FailureMessage(reply: UploadReply, c: Category): string {
    match reply
    case Threw(m) => m
    case Answered(_, e) => if Truthy(e) then e.value else "“" + c.name + "”图片上传失败"
  }

  /** `finalPhotos[c] && finalPhotos[c].file`. */
  function FileOf(v: Option<Value>): Option<File> {
    if v.Some? && v.value.Slot? then v.value.file else None
  }

  /** The state of the upload loop: the copy being updated, the requests made
      so far, and the failure that ended it, if any. */
  datatype Run = Run(photos: Entries<Value>, calls: seq<(string, File)>, failure: Option<string>)

  /** One turn of the loop, for category `c`. */
  function UploadStep(r: Run, c: Category, upload: (string, File) -> UploadReply): Run {
    if r.failure.Some? then r
    else match FileOf(Get(r.photos, c.id))
      case None => r
      case Some(f) =>
        var calls := r.calls + [(c.id, f)];
        var reply := upload(c.id, f);
        if Succeeded(reply) then Run(Set(r.photos, c.id, Slot(SecureUrl(reply), None)), calls, None)
        else Run(r.photos, calls, Some(FailureMessage(reply, c)))
  }

  /** The loop over `cats`, starting from the record `o`. */
  function UploadAll(o: Entries<Value>, cats: seq<Category>, upload: (string, File) -> UploadReply): Run
    decreases |cats|
  {
    if cats == [] then Run(o, [], None)
    else UploadStep(UploadAll(o, cats[..|cats| - 1], upload), cats[|cats| - 1], upload)
  }

  /** The request the loop makes for category `c` of record `o`, if it holds a file. */
  function FileCall(o: Entries<Value>, c: Category): seq<(string, File)> {
    match FileOf(Get(o, c.id))
    case None => []
    case Some(f) => [(c.id, f)]
  }

  /** The requests a loop over `cats` makes when none fails: one per
      category holding a file, in category order. */
  function FileCalls(o: Entries<Value>, cats: seq<Category>): seq<(string, File)>
    decreases |cats|
  {
    if cats == [] then [] else FileCalls(o, cats[..|cats| - 1]) + FileCall(o, cats[|cats| - 1])
  }

  /** The slot a category ends with when every upload succeeds. */
  function Uploaded(v: Option<Value>, id: string, upload: (string, File) -> UploadReply): Option<Value> {
    match FileOf(v)
    case None => v
    case Some(f) => Some(Slot(SecureUrl(upload(id, f)), None))
  }

  predicate CallsSucceeded(calls: seq<(string, File)>, n: int, upload: (string, File) -> UploadReply) {
    forall i :: 0 <= i < n && i < |calls| ==> Succeeded(upload(calls[i].0, calls[i].1))
  }

  /** The loop over the first `i + 1` categories is one more turn of the loop over the first `i`. */
  lemma UploadAllSnoc(o: Entries<Value>, cats: seq<Category>, i: nat, upload: (string, File) -> UploadReply)
    requires i < |cats|
    ensures UploadAll(o, cats[..i + 1], upload) == UploadStep(UploadAll(o, cats[..i], upload), cats[i], upload)
  {
    assert cats[..i + 1][..i] == cats[..i];
  }

  /** A turn adds its requests after the ones made before it. */
  lemma StepCalls(p: Entries<Value>, calls: seq<(string, File)>, c: Category, upload: (string, File) -> UploadReply)
    ensures var s := UploadStep(Run(p, [], None), c, upload);
            UploadStep(Run(p, calls, None), c, upload) == Run(s.photos, calls + s.calls, s.failure)
  {
  }

  /** A failure ends the loop: later categories change nothing. */
  lemma {:induction false} FailureSticks(o: Entries<Value>, cats: seq<Category>, j: nat,
                                         upload: (string, File) -> UploadReply)
    requires j <= |cats|
    requires UploadAll(o, cats[..j], upload).failure.Some?
    ensures UploadAll(o, cats, upload) == UploadAll(o, cats[..j], upload)
    decreases |cats|
  {
    if j < |cats| {
      assert cats[..|cats| - 1][..j] == cats[..j];
      FailureSticks(o, cats[..|cats| - 1], j, upload);
    } else {
      assert cats[..j] == cats;
    }
  }

  /** One turn touches only the slot of its category, keeps the keys, and
      either uploads that slot's file or stops with the failed request. */
  lemma UploadStepSpec(r: Run, c: Category, upload: (string, File) -> UploadReply)
    ensures var s := UploadStep(r, c, upload);
            && Keys(s.photos) == Keys(r.photos)
            && (forall k :: k != c.id ==> Get(s.photos, k) == Get(r.photos, k))
            && (r.failure.Some? ==> s == r)
            && (r.failure.None? ==> s.calls == r.calls + FileCall(r.photos, c))
            && (r.failure.None? && s.failure.None? ==>
                  Get(s.photos, c.id) == Uploaded(Get(r.photos, c.id), c.id, upload)
                  && CallsSucceeded(FileCall(r.photos, c), 1, upload))
            && (r.failure.None? && s.failure.Some? ==>
                  |FileCall(r.photos, c)| == 1
                  && !Succeeded(upload(FileCall(r.photos, c)[0].0, FileCall(r.photos, c)[0].1)))
  {
    if r.failure.None? && FileOf(Get(r.photos, c.id)).Some? {
      var reply := upload(c.id, FileOf(Get(r.photos, c.id)).value);
      GetDefinedIff(r.photos, c.id);
      SetSpec(r.photos, c.id, Slot(SecureUrl(reply), None));
    }
  }

  /** The upload loop keeps the record's keys and every entry outside `cats`. */
  lemma {:induction false} UploadKeeps(o: Entries<Value>, cats: seq<Category>, upload: (string, File) -> UploadReply)
    ensures Keys(UploadAll(o, cats, upload).photos) == Keys(o)
    ensures forall k :: k !in Ids(cats) ==> Get(UploadAll(o, cats, upload).photos, k) == Get(o, k)
    decreases |cats|
  {
    if cats != [] {
      var init := cats[..|cats| - 1];
      UploadKeeps(o, init, upload);
      UploadStepSpec(UploadAll(o, init, upload), cats[|cats| - 1], upload);
      assert Ids(cats) == Ids(init) + [cats[|cats| - 1].id];
    }
  }

  /** When no upload fails, the loop requests exactly the files of `cats` in
      order, and every request succeeded. */
  lemma {:induction false} UploadSuccessCalls(o: Entries<Value>, cats: seq<Category>,
                                              upload: (string, File) -> UploadReply)
    requires DistinctIds(cats)
    requires UploadAll(o, cats, upload).failure.None?
    ensures UploadAll(o, cats, upload).calls == FileCalls(o, cats)
    ensures CallsSucceeded(UploadAll(o, cats, upload).calls, |UploadAll(o, cats, upload).calls|, upload)
    decreases |cats|
  {
    if cats != [] {
      var init := cats[..|cats| - 1];
      var c := cats[|cats| - 1];
      var r0 := UploadAll(o, init, upload);
      assert DistinctIds(init);
      UploadSuccessCalls(o, init, upload);
      UploadKeeps(o, init, upload);
      NotAmongEarlier(cats);
      UploadStepSpec(r0, c, upload);
      assert FileCall(r0.photos, c) == FileCall(o, c);
      var calls := UploadAll(o, cats, upload).calls;
      forall i | 0 <= i < |calls| ensures Succeeded(upload(calls[i].0, calls[i].1)) {
        if i < |r0.calls| {
          assert calls[i] == r0.calls[i];
        } else {
          assert calls[i] == FileCall(r0.photos, c)[0];
        }
      }
    }
  }

  /** The last category's id is not among the earlier ones. */
  lemma NotAmongEarlier(cats: seq<Category>)
    requires DistinctIds(cats) && cats != []
    ensures cats[|cats| - 1].id !in Ids(cats[..|cats| - 1])
  {
    var init := cats[..|cats| - 1];
    assert forall i :: 0 <= i < |init| ==> Ids(init)[i] == cats[i].id;
  }

  /** When no upload fails, every category with a file ends holding its new
      url and no file, and every other category is untouched. */
  lemma {:induction false} UploadSuccessSlots(o: Entries<Value>, cats: seq<Category>,
                                              upload: (string, File) -> UploadReply, i: nat)
    requires DistinctIds(cats)
    requires UploadAll(o, cats, upload).failure.None?
    requires i < |cats|
    ensures Get(UploadAll(o, cats, upload).photos, cats[i].id) == Uploaded(Get(o, cats[i].id), cats[i].id, upload)
    decreases |cats|
  {
    var init := cats[..|cats| - 1];
    var c := cats[|cats| - 1];
    var r0 := UploadAll(o, init, upload);
    assert DistinctIds(init);
    UploadStepSpec(r0, c, upload);
    if i < |init| {
      UploadSuccessSlots(o, init, upload, i);
      assert cats[i] == init[i];
      assert cats[i].id != c.id;
    } else {
      UploadKeeps(o, init, upload);
      NotAmongEarlier(cats);
    }
  }

  /** When an upload fails, the requests made are a prefix of those of a
      loop without failures; every request before the last succeeded and
      the last one failed. */
  lemma {:induction false} UploadFailure(o: Entries<Value>, cats: seq<Category>, upload: (string, File) -> UploadReply)
    requires DistinctIds(cats)
    requires UploadAll(o, cats, upload).failure.Some?
    ensures var r := UploadAll(o, cats, upload);
            && r.calls != [] && r.calls <= FileCalls(o, cats)
            && CallsSucceeded(r.calls, |r.calls| - 1, upload)
            && !Succeeded(upload(r.calls[|r.calls| - 1].0, r.calls[|r.calls| - 1].1))
    decreases |cats|
  {
    var init := cats[..|cats| - 1];
    var c := cats[|cats| - 1];
    var r0 := UploadAll(o, init, upload);
    assert DistinctIds(init);
    UploadStepSpec(r0, c, upload);
    if r0.failure.Some? {
      UploadFailure(o, init, upload);
      assert FileCalls(o, cats) == FileCalls(o, init) + FileCall(o, c);
    } else {
      UploadSuccessCalls(o, init, upload);
      UploadKeeps(o, init, upload);
      NotAmongEarlier(cats);
      assert FileCall(r0.photos, c) == FileCall(o, c);
    }
  }

  // ---------------------------------------------------------------------
  // Saving

  /** One entry of `photosToSave`. */
  datatype PhotoRow = PhotoRow(category: string, photoUrl: string)

  /** `Object.entries(finalPhotos).filter(([_, p]) => p && p.url).map(...)`. */
  function PhotosToSave(o: Entries<Value>): (rows: seq<PhotoRow>)
    ensures |rows| <= |o|
  {
    if o == [] then []
    else
      var rest := PhotosToSave(o[..|o| - 1]);
      var (k, v) := o[|o| - 1];
      if v.Slot? && Truthy(v.url) then rest + [PhotoRow(k, v.url.value)] else rest
  }

  /** The rows saved are exactly the slots with a non-empty url, under their
      keys; with distinct keys and the name under `cityName`, no row is
      named `cityName`. */
  lemma {:induction false} PhotosToSaveSpec(o: Entries<Value>, row: PhotoRow)
    ensures row in PhotosToSave(o) <==>
      exists i :: 0 <= i < |o| && o[i].1.Slot? && Truthy(o[i].1.url) && row == PhotoRow(o[i].0, o[i].1.url.value)
    ensures DistinctKeys(o) && Get(o, "cityName").Some? && Get(o, "cityName").value.Name? ==>
      row in PhotosToSave(o) ==> row.category != "cityName"
  {
    if o != [] {
      var init := o[..|o| - 1];
      PhotosToSaveSpec(init, row);
      if row in PhotosToSave(o) && !(row in PhotosToSave(init)) {
        assert row == PhotoRow(o[|o| - 1].0, o[|o| - 1].1.url.value);
      }
      if exists i :: 0 <= i < |o| && o[i].1.Slot? && Truthy(o[i].1.url) && row == PhotoRow(o[i].0, o[i].1.url.value) {
        var i :| 0 <= i < |o| && o[i].1.Slot? && Truthy(o[i].1.url) && row == PhotoRow(o[i].0, o[i].1.url.value);
        if i < |o| - 1 {
          assert init[i] == o[i];
        }
      }
    }
    if DistinctKeys(o) && Get(o, "cityName").Some? && Get(o, "cityName").value.Name? && row in PhotosToSave(o) {
      var i :| 0 <= i < |o| && o[i].1.Slot? && Truthy(o[i].1.url) && row == PhotoRow(o[i].0, o[i].1.url.value);
      var p := Position(o, "cityName");
      assert p.Some? && o[p.value].1.Name?;
    }
  }

  /** `visitDate || null`. */
  function VisitDateField(visitDate: string): (r: Option<string>)
    ensures r.None? <==> visitDate == ""
    ensures r.Some? ==> r.value == visitDate
  {
    if visitDate == "" then None else Some(visitDate)
  }

  /** The first argument of `onSave`. */
  datatype Payload = Payload(cityName: string, visitDate: Option<string>)

  // ---------------------------------------------------------------------
  // The original image and the rating line

  /** The text before the first "/upload/" of `s`, or all of `s` when it
      holds none. Applied to what follows a url's first "/upload/", this is
      `url.split('/upload/')[1]`. */
  function FirstPart(s: string): (r: string)
    ensures StartsWith(s, r)
    ensures forall m :: 0 <= m < |r| ==> !OccursAt(s, "/upload/", m)
    ensures r == s || OccursAt(s, "/upload/", |r|)
    ensures forall m :: !OccursAt(r, "/upload/", m)
  {
    match IndexOf(s, "/upload/")
    case None => s
    case Some(j) =>
      assert forall m :: OccursAt(s[..j], "/upload/", m) ==> OccursAt(s, "/upload/", m) by {
        forall m | OccursAt(s[..j], "/upload/", m) ensures OccursAt(s, "/upload/", m) {
          assert s[..j][m..m + 8] == s[m..m + 8];
        }
      }
      s[..j]
  }

  /** `seg.indexOf('v')`, or 0 where `substring(-1)` starts at the front:
      the position of the first 'v', and 0 when there is none. */
  function VIndex(seg: string): (k: nat)
    ensures k <= |seg|
    ensures forall m :: 0 <= m < k ==> seg[m] != 'v'
    ensures 'v' in seg ==> k < |seg| && seg[k] == 'v'
    ensures 'v' !in seg ==> k == 0
  {
    assert forall m :: 0 <= m < |seg| ==> (OccursAt(seg, "v", m) <==> seg[m] == 'v') by {
      forall m | 0 <= m < |seg| ensures OccursAt(seg, "v", m) <==> seg[m] == 'v' {
        assert seg[m..m + 1] == [seg[m]];
      }
    }
    match IndexOf(seg, "v")
    case None => 0
    case Some(k) => k
  }

  /** What follows the first "/upload/": its segment, from its first 'v'. */
  function Kept(rest: string): string {
    var seg := FirstPart(rest);
    seg[VIndex(seg)..]
  }

  /** `getOriginalCloudinaryUrl`. */
  function OriginalUrl(url: Option<string>): Option<string> {
    if !Truthy(url) || !Includes(url.value, "/upload/") then url
    else
      IncludesIffIndexOf(url.value, "/upload/");
      var i := IndexOf(url.value, "/upload/").value;
      Some(url.value[..i] + "/upload/" + Kept(url.value[i + 8..]))
  }

  /** The kept text is the segment before the next "/upload/" from its
      first 'v' on, or the whole segment when it has no 'v'. It holds no
      "/upload/", and keeping it again changes nothing. */
  lemma KeptSpec(rest: string)
    ensures var seg := FirstPart(rest);
            var t := Kept(rest);
            && |t| <= |seg| && t == seg[|seg| - |t|..]
            && ('v' !in seg ==> t == seg)
            && ('v' in seg ==> t != [] && t[0] == 'v' && forall m :: 0 <= m < |seg| - |t| ==> seg[m] != 'v')
    ensures !Includes(Kept(rest), "/upload/")
    ensures Includes(Kept(rest), "v") ==> StartsWith(Kept(rest), "v")
    ensures FirstPart(Kept(rest)) == Kept(rest)
    ensures Kept(Kept(rest)) == Kept(rest)
  {
    var seg := FirstPart(rest);
    var k := VIndex(seg);
    var t := seg[k..];
    SuffixKeepsAbsence(seg, "/upload/", k);
    IncludesIffIndexOf(t, "/upload/");
    IncludesIffIndexOf(t, "v");
    if IndexOf(seg, "v").Some? {
      assert seg[k..k + 1] == "v";
      assert t[0..1] == seg[k..k + 1];
      IndexOfIs(t, "v", 0);
    } else {
      assert t == seg;
    }
  }

  /** A string without `p` has no `p` in any of its suffixes. */
  lemma SuffixKeepsAbsence(s: string, p: string, k: nat)
    requires k <= |s|
    requires forall m :: !OccursAt(s, p, m)
    ensures forall m :: !OccursAt(s[k..], p, m)
  {
    forall m | 0 <= m && m + |p| <= |s| - k ensures !OccursAt(s[k..], p, m) {
      assert s[k..][m..m + |p|] == s[m + k..m + k + |p|];
      assert !OccursAt(s, p, m + k);
    }
  }

  /** Text that keeps `s` up to and including its first `p`, at `i`, finds
      it there again and keeps the rest after it. */
  lemma FirstMarkerKept(s: string, p: string, i: nat, t: string)
    requires IndexOf(s, p) == Some(i)
    ensures var r := s[..i] + p + t;
            |r| >= i + |p| && r[..i + |p|] == s[..i + |p|] && r[..i] == s[..i] && r[i + |p|..] == t
            && IndexOf(r, p) == Some(i)
  {
    var q := s[..i + |p|];
    assert q == s[..i] + p by {
      assert s[i..i + |p|] == p;
    }
    var r := q + t;
    assert r == s[..i] + p + t;
    assert r[..i + |p|] == q;
    assert OccursAt(r, p, i) by {
      assert r[i..i + |p|] == q[i..];
    }
    forall j | 0 <= j < i ensures !OccursAt(r, p, j) {
      PrefixWindow(q, t, j, |p|);
      PrefixWindow(q, s[i + |p|..], j, |p|);
      assert q + s[i + |p|..] == s;
      assert !OccursAt(s, p, j);
    }
    IndexOfIs(r, p, i);
  }

  /** A window that lies inside `q` reads the same in `q + t`. */
  lemma PrefixWindow(q: string, t: string, j: nat, n: nat)
    requires j + n <= |q|
    ensures (q + t)[j..j + n] == q[j..j + n]
  {
  }

  /** The rewrite of a url whose first "/upload/" is at `i`. */
  lemma OriginalUrlAt(s: string, i: nat)
    requires s != "" && IndexOf(s, "/upload/") == Some(i)
    ensures OriginalUrl(Some(s)) == Some(s[..i] + "/upload/" + Kept(s[i + 8..]))
  {
    IncludesIffIndexOf(s, "/upload/");
  }

  /** A missing or empty url, or one without "/upload/", comes back as it
      is. Otherwise the result keeps the text up to and including the first
      "/upload/" and then the segment up to the next "/upload/" (or the end)
      from that segment's first 'v' on, the whole segment when it has no
      'v'. The part after the first "/upload/" holds no further one. */
  lemma OriginalUrlSpec(url: Option<string>)
    ensures !Truthy(url) || !Includes(url.value, "/upload/") ==> OriginalUrl(url) == url
    ensures Truthy(url) && IndexOf(url.value, "/upload/").Some? ==>
      var i := IndexOf(url.value, "/upload/").value;
      var seg := FirstPart(url.value[i + 8..]);
      var r := OriginalUrl(url);
      && r.Some? && r.value == url.value[..i + 8] + seg[VIndex(seg)..]
      && !Includes(r.value[i + 8..], "/upload/")
  {
    if Truthy(url) && IndexOf(url.value, "/upload/").Some? {
      var s := url.value;
      var i := IndexOf(s, "/upload/").value;
      OriginalUrlAt(s, i);
      KeptSpec(s[i + 8..]);
      FirstMarkerKept(s, "/upload/", i, Kept(s[i + 8..]));
    }
  }

  /** Rewriting an already rewritten url changes nothing. */
  lemma OriginalUrlIdempotent(url: Option<string>)
    ensures OriginalUrl(OriginalUrl(url)) == OriginalUrl(url)
  {
    if Truthy(url) && Includes(url.value, "/upload/") {
      var s := url.value;
      IncludesIffIndexOf(s, "/upload/");
      var i := IndexOf(s, "/upload/").value;
      var t := Kept(s[i + 8..]);
      var r := s[..i] + "/upload/" + t;
      OriginalUrlAt(s, i);
      KeptSpec(s[i + 8..]);
      FirstMarkerKept(s, "/upload/", i, t);
      OriginalUrlAt(r, i);
    }
  }

  /** What the rating paragraph shows: nothing, a line of stars, or the
      RangeError `repeat` throws for a negative count. */
  datatype RatingLine = Hidden | Stars(text: string) | RangeError

  /** `cityData.rating > 0 && '★'.repeat(rating) + '☆'.repeat(10 - rating)`. */
  function RatingLineOf(rating: Option<int>): RatingLine {
    if rating.None? || rating.value <= 0 then Hidden
    else if 10 - rating.value < 0 then RangeError
    else Stars(Repeat('★', rating.value) + Repeat('☆', 10 - rating.value))
  }

  /** The line appears for a positive rating only; for ratings 1..10 it is
      ten glyphs, the first `rating` of them filled; above 10 rendering
      throws. */
  lemma RatingLineSpec(rating: Option<int>)
    ensures RatingLineOf(rating).Hidden? <==> rating.None? || rating.value <= 0
    ensures RatingLineOf(rating).RangeError? <==> rating.Some? && rating.value > 10
    ensures RatingLineOf(rating).Stars? ==>
      var text := RatingLineOf(rating).text;
      rating.Some? && 1 <= rating.value <= 10 && |text| == 10
      && forall i :: 0 <= i < 10 ==> text[i] == (if i < rating.value then '★' else '☆')
  {
  }

  // ---------------------------------------------------------------------
  // The panel

  class Panel {
    var city: Option<CityData>
    var visitDate: string
    var photos: Entries<Value>
    var activeCategory: string
    var isUploading: bool
    var isDragging: bool
    /** The upload requests sent, oldest first. */
    var uploads: seq<(string, File)>
    /** The `onSave` calls made, oldest first. */
    var saves: seq<(Payload, seq<PhotoRow>)>
    var toasts: seq<string>

    constructor ()
      ensures city == None && visitDate == "" && photos == [] && activeCategory == "scenery"
      ensures !isUploading && !isDragging && uploads == [] && saves == [] && toasts == []
    {
      city := None;
      visitDate := "";
      photos := [];
      activeCategory := "scenery";
      isUploading := false;
      isDragging := false;
      uploads := [];
      saves := [];
      toasts := [];
    }

    /** A new `cityData` prop and the effect it triggers; `today` is the
        date used when the city has none. Without a city nothing but the
        prop changes. */
    method Receive(cityData: Option<CityData>, today: string)
      modifies this
      ensures city == cityData
      ensures cityData.None? ==> visitDate == old(visitDate) && photos == old(photos)
                                 && activeCategory == old(activeCategory)
      ensures cityData.Some? ==>
        && visitDate == (if Truthy(cityData.value.visitDate) then cityData.value.visitDate.value else today)
        && photos == Reduced(old(photos), cityData.value)
        && activeCategory == "scenery"
      ensures isUploading == old(isUploading) && isDragging == old(isDragging)
      ensures uploads == old(uploads) && saves == old(saves) && toasts == old(toasts)
    {
      city := cityData;
      if cityData.Some? {
        var c := cityData.value;
        visitDate := if c.visitDate.Some? && c.visitDate.value != "" then c.visitDate.value else today;
        if photos == [] || Get(photos, "cityName") != Some(Name(c.name)) {
          photos := Set(FromPairs(PhotoPairs(StoredPhotos(c))), "cityName", Name(c.name));
        }
        activeCategory := "scenery";
      }
    }

    /** A category tab. */
    method SelectCategory(id: string)
      requires id in Ids(PhotoCategories)
      modifies this
      ensures activeCategory == id
      ensures city == old(city) && visitDate == old(visitDate) && photos == old(photos)
      ensures isUploading == old(isUploading) && isDragging == old(isDragging)
      ensures uploads == old(uploads) && saves == old(saves) && toasts == old(toasts)
    {
      activeCategory := id;
    }

    /** The date picker's `onChange`. */
    method SetVisitDate(date: string)
      modifies this
      ensures visitDate == date
      ensures city == old(city) && photos == old(photos) && activeCategory == old(activeCategory)
      ensures isUploading == old(isUploading) && isDragging == old(isDragging)
      ensures uploads == old(uploads) && saves == old(saves) && toasts == old(toasts)
    {
      visitDate := date;
    }

    /** `handleFileChange`: only an image goes into the active slot. */
    method HandleFileChange(file: Option<File>)
      modifies this
      ensures photos == if Accepts(file) then WithFile(old(photos), activeCategory, file.value) else old(photos)
      ensures city == old(city) && visitDate == old(visitDate) && activeCategory == old(activeCategory)
      ensures isUploading == old(isUploading) && isDragging == old(isDragging)
      ensures uploads == old(uploads) && saves == old(saves) && toasts == old(toasts)
    {
      if file.Some? && StartsWith(file.value.mimeType, "image/") {
        var current := Get(photos, activeCategory);
        var url := if current.Some? && current.value.Slot? then current.value.url else None;
        photos := Set(photos, activeCategory, Slot(url, file));
      }
    }

    method HandleDragOver()
      modifies this
      ensures isDragging
      ensures city == old(city) && visitDate == old(visitDate) && photos == old(photos)
      ensures activeCategory == old(activeCategory) && isUploading == old(isUploading)
      ensures uploads == old(uploads) && saves == old(saves) && toasts == old(toasts)
    {
      isDragging := true;
    }

    method HandleDragLeave()
      modifies this
      ensures !isDragging
      ensures city == old(city) && visitDate == old(visitDate) && photos == old(photos)
      ensures activeCategory == old(activeCategory) && isUploading == old(isUploading)
      ensures uploads == old(uploads) && saves == old(saves) && toasts == old(toasts)
    {
      isDragging := false;
    }

    /** `handleDrop`: the first dropped file, if any, is handled as if chosen. */
    method HandleDrop(files: seq<File>)
      modifies this
      ensures !isDragging
      ensures photos == if files != [] && Accepts(Some(files[0]))
                        then WithFile(old(photos), activeCategory, files[0]) else old(photos)
      ensures city == old(city) && visitDate == old(visitDate) && activeCategory == old(activeCategory)
      ensures isUploading == old(isUploading)
      ensures uploads == old(uploads) && saves == old(saves) && toasts == old(toasts)
    {
      isDragging := false;
      if files != [] {
        HandleFileChange(Some(files[0]));
      }
    }

    /** The `for` loop of `handleSave`, over `cats` (PHOTO_CATEGORIES there): upload each chosen file in category
        order on a copy of the record, stopping at the first failure. */
    method UploadChosen(cats: seq<Category>, upload: (string, File) -> UploadReply)
        returns (finalPhotos: Entries<Value>, failure: Option<string>)
      modifies this`uploads
      ensures var run := UploadAll(photos, cats, upload);
              finalPhotos == run.photos && failure == run.failure && uploads == old(uploads) + run.calls
    {
      finalPhotos := photos;
      ghost var calls: seq<(string, File)> := [];
      for i := 0 to |cats|
        invariant UploadAll(photos, cats[..i], upload) == Run(finalPhotos, calls, None)
        invariant uploads == old(uploads) + calls
      {
        UploadAllSnoc(photos, cats, i, upload);
        StepCalls(finalPhotos, calls, cats[i], upload);
        ghost var step := UploadStep(Run(finalPhotos, [], None), cats[i], upload);
        var next, stopped := UploadOne(finalPhotos, cats[i], upload);
        finalPhotos := next;
        calls := calls + step.calls;
        if stopped.Some? {
          failure := stopped;
          FailureSticks(photos, cats, i + 1, upload);
          return;
        }
      }
      assert cats[..|cats|] == cats;
      failure := None;
    }

    /** One turn of the loop: upload the file of category `cat`, if it has one. */
    method UploadOne(current: Entries<Value>, cat: Category, upload: (string, File) -> UploadReply)
        returns (next: Entries<Value>, failure: Option<string>)
      modifies this`uploads
      ensures var step := UploadStep(Run(current, [], None), cat, upload);
              next == step.photos && failure == step.failure && uploads == old(uploads) + step.calls
    {
      next, failure := current, None;
      var slot := Get(current, cat.id);
      if slot.Some? && slot.value.Slot? && slot.value.file.Some? {
        var f := slot.value.file.value;
        uploads := uploads + [(cat.id, f)];
        var reply := upload(cat.id, f);
        if reply.Answered? && reply.secureUrl.Some? && reply.secureUrl.value != "" {
          next := Set(current, cat.id, Slot(reply.secureUrl, None));
        } else {
          failure := Some(match reply
            case Threw(m) => m
            case Answered(_, e) => if e.Some? && e.value != "" then e.value else "“" + cat.name + "”图片上传失败");
        }
      }
    }

    /** `handleSave`: the uploads, then a message for a failure or else
        `onSave` with the city, the date and the saved rows. The panel's own
        record is never updated. */
    method HandleSave(upload: (string, File) -> UploadReply)
      requires city.Some?
      modifies this
      ensures city == old(city) && visitDate == old(visitDate) && photos == old(photos)
      ensures activeCategory == old(activeCategory) && isDragging == old(isDragging)
      ensures var run := UploadAll(old(photos), PhotoCategories, upload);
        && uploads == old(uploads) + run.calls
        && (run.failure.Some? ==> toasts == old(toasts) + [run.failure.value] && saves == old(saves))
        && (run.failure.None? ==>
              toasts == old(toasts)
              && saves == old(saves) + [(Payload(city.value.name, VisitDateField(visitDate)), PhotosToSave(run.photos))])
      ensures !isUploading
    {
      isUploading := true;
      var finalPhotos, failure := UploadChosen(PhotoCategories, upload);
      if failure.Some? {
        toasts := toasts + [failure.value];
        isUploading := false;
        return;
      }
      var photosToSave := PhotosToSave(finalPhotos);
      saves := saves + [(Payload(city.value.name, if visitDate == "" then None else Some(visitDate)), photosToSave)];
      isUploading := false;
    }
  }
}
