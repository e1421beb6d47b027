/** The property controller (src/controllers/property.controller.ts): the
    reference generator, the canonical address, the image bookkeeping and
    the create, update, delete and lookup operations over the record store,
    the image store and the log of search-engine notifications. */
module PropertyController {
  import opened Wrappers
  import opened Text
  import opened Form
  import Slug
  import Keywords
  import VideoUrls
  import Seo
  import opened PropertySchema

  /** A record id (an ObjectId in its string form). */
  type Id = string

  // ---------------------------------------------------------------------
  // Reference numbers
  // ---------------------------------------------------------------------

  /** The 32 characters of a reference suffix: no I, O, 0 or 1. */
  const RefAlphabet: string := "ABCDEFGHJKLMNPQRSTUVWXYZ23456789"

  const RefSuffixLength: nat := 6

  /** The fixed head of every generated reference for a year. */
  function RefPrefix(year: int): string {
    "BARR-" + IntToString(year) + "-"
  }

  /** The random suffix: each random byte picks a character by its low five
      bits, as the 32-character alphabet makes every pick valid. */
  function RefSuffix(bytes: seq<nat>): (r: string)
    requires |bytes| == RefSuffixLength
    ensures |r| == RefSuffixLength
    ensures forall i :: 0 <= i < |r| ==> r[i] in RefAlphabet
  {
    seq(RefSuffixLength, i requires 0 <= i < RefSuffixLength => RefAlphabet[bytes[i] % 32])
  }

  /** Whether the attempt `k` has its six random bytes in the stream. */
  predicate HasAttempt(random: seq<nat>, k: nat) {
    RefSuffixLength * (k + 1) <= |random|
  }

  /** The reference tried at attempt `k`. */
  function RefCandidate(year: int, random: seq<nat>, k: nat): (r: string)
    requires HasAttempt(random, k)
    ensures |r| == |RefPrefix(year)| + RefSuffixLength && r[..|RefPrefix(year)|] == RefPrefix(year)
    ensures forall i :: |RefPrefix(year)| <= i < |r| ==> r[i] in RefAlphabet
  {
    var suffix := RefSuffix(random[RefSuffixLength * k..RefSuffixLength * (k + 1)]);
    SuffixChars(RefPrefix(year), suffix, RefAlphabet);
    RefPrefix(year) + suffix
  }

  /** A text drawn from an alphabet, put after a head, keeps its characters
      in the alphabet. */
  lemma SuffixChars(head: string, suffix: string, alphabet: string)
    requires forall i :: 0 <= i < |suffix| ==> suffix[i] in alphabet
    ensures (head + suffix)[..|head|] == head
    ensures forall i :: |head| <= i < |head + suffix| ==> (head + suffix)[i] in alphabet
  {
    assert forall i :: |head| <= i < |head + suffix| ==> (head + suffix)[i] == suffix[i - |head|];
  }

  /** `Property.exists({ ref })`. */
  predicate RefTaken(store: map<Id, Record>, ref: string) {
    exists id :: id in store && store[id].ref == ref
  }

  /** The first reference, from attempt `k` on, that no record holds; `None`
      when the random stream runs out first. */
  function FreeRefFrom(store: map<Id, Record>, year: int, random: seq<nat>, k: nat): (r: Option<string>)
    ensures r.Some? ==> !RefTaken(store, r.value)
    ensures r.Some? ==> exists j :: k <= j && HasAttempt(random, j) && r.value == RefCandidate(year, random, j)
                          && forall i :: k <= i < j ==> RefTaken(store, RefCandidate(year, random, i))
    ensures r.None? ==> forall j :: k <= j && HasAttempt(random, j) ==> RefTaken(store, RefCandidate(year, random, j))
    decreases |random| - RefSuffixLength * k
  {
    if !HasAttempt(random, k) then None
    else if !RefTaken(store, RefCandidate(year, random, k)) then Some(RefCandidate(year, random, k))
    else FreeRefFrom(store, year, random, k + 1)
  }

  /** The first free reference of the stream. */
  function FreeRef(store: map<Id, Record>, year: int, random: seq<nat>): Option<string> {
    FreeRefFrom(store, year, random, 0)
  }

  /** A generated reference is `BARR-<year>-` and six alphabet characters,
      and no record holds it. */
  lemma FreeRefShape(store: map<Id, Record>, year: int, random: seq<nat>)
    ensures FreeRef(store, year, random).Some? ==>
            var r := FreeRef(store, year, random).value;
            |r| == |RefPrefix(year)| + 6 && r[..|RefPrefix(year)|] == RefPrefix(year)
            && (forall i :: |RefPrefix(year)| <= i < |r| ==> r[i] in RefAlphabet)
            && !RefTaken(store, r)
  {
    if FreeRef(store, year, random).Some? {
      var j :| 0 <= j && HasAttempt(random, j) && FreeRef(store, year, random).value == RefCandidate(year, random, j);
    }
  }

  // ---------------------------------------------------------------------
  // Canonical address
  // ---------------------------------------------------------------------

  /** `propertyUrl`: the site base, `/properties/<id>`, then `/<slug>` when
      there is a slug. */
  function PropertyUrl(env: Option<string>, id: Id, slug: string): string {
    var base := Seo.SiteBase(env);
    if slug != "" then base + "/properties/" + id + "/" + slug else base + "/properties/" + id
  }

  /** The address notified to search engines is the one the sitemap lists. */
  lemma PropertyUrlIsSitemapLoc(env: Option<string>, id: Id, slug: string)
    ensures PropertyUrl(env, id, slug) == Seo.PropertyLoc(Seo.SiteBase(env), id, slug)
  {
    var base := Seo.SiteBase(env);
    if slug != "" {
      assert base + "/properties/" + id + "/" + slug == base + "/properties/" + id + ("/" + slug);
    } else {
      assert base + "/properties/" + id + "" == base + "/properties/" + id;
    }
  }

  /** Text without `/`, followed by nothing or by a `/`-headed part, splits
      back into the two. */
  lemma SplitAtSlash(a: string, x: string, b: string, y: string)
    requires NoneIn(a, {'/'}) && NoneIn(b, {'/'})
    requires x == [] || x[0] == '/'
    requires y == [] || y[0] == '/'
    requires a + x == b + y
    ensures a == b && x == y
  {
    TakeUntilOf(a, '/', x);
    TakeUntilOf(b, '/', y);
    assert x == (a + x)[|a|..];
    assert y == (b + y)[|b|..];
  }

  /** The address as the shared head followed by the record's own part. */
  lemma PropertyUrlParts(env: Option<string>, id: Id, slug: string)
    ensures PropertyUrl(env, id, slug)
            == Seo.SiteBase(env) + "/properties/" + (id + (if slug != "" then "/" + slug else ""))
  {
  }

  /** Equal texts with the same head have the same rest. */
  lemma CancelHead(head: string, a: string, b: string)
    requires head + a == head + b
    ensures a == b
  {
    assert a == (head + a)[|head|..];
    assert b == (head + b)[|head|..];
  }

  /** Distinct records have distinct addresses: the address gives back the
      id (ids hold no `/`) and the slug. */
  lemma PropertyUrlInjective(env: Option<string>, id1: Id, slug1: string, id2: Id, slug2: string)
    requires NoneIn(id1, {'/'}) && NoneIn(id2, {'/'})
    requires PropertyUrl(env, id1, slug1) == PropertyUrl(env, id2, slug2)
    ensures id1 == id2 && slug1 == slug2
  {
    var x1 := if slug1 != "" then "/" + slug1 else "";
    var x2 := if slug2 != "" then "/" + slug2 else "";
    PropertyUrlParts(env, id1, slug1);
    PropertyUrlParts(env, id2, slug2);
    CancelHead(Seo.SiteBase(env) + "/properties/", id1 + x1, id2 + x2);
    SplitAtSlash(id1, x1, id2, x2);
    if slug1 != "" && slug2 != "" {
      assert slug1 == x1[1..] && slug2 == x2[1..];
    }
  }

  // ---------------------------------------------------------------------
  // Images
  // ---------------------------------------------------------------------

  /** The stored images whose address is in the keep list, in order. */
  function Kept(images: seq<Image>, keep: seq<string>): (r: seq<Image>)
    ensures |r| <= |images|
    ensures forall k :: 0 <= k < |r| ==> r[k].url in keep
  {
    if images == [] then []
    else
      var init := Kept(images[..|images| - 1], keep);
      var last := images[|images| - 1];
      if last.url in keep then init + [last] else init
  }

  /** The stored images whose address is not in the keep list, in order. */
  function Dropped(images: seq<Image>, keep: seq<string>): (r: seq<Image>)
    ensures |r| <= |images|
    ensures forall k :: 0 <= k < |r| ==> r[k].url !in keep
  {
    if images == [] then []
    else
      var init := Dropped(images[..|images| - 1], keep);
      var last := images[|images| - 1];
      if last.url !in keep then init + [last] else init
  }

  /** One unfolding of `Kept` at the last image. */
  lemma KeptSnoc(images: seq<Image>, keep: seq<string>)
    requires images != []
    ensures var last := images[|images| - 1];
            Kept(images, keep) == Kept(images[..|images| - 1], keep) + (if last.url in keep then [last] else [])
  {
  }

  /** One unfolding of `Dropped` at the last image. */
  lemma DroppedSnoc(images: seq<Image>, keep: seq<string>)
    requires images != []
    ensures var last := images[|images| - 1];
            Dropped(images, keep) == Dropped(images[..|images| - 1], keep) + (if last.url !in keep then [last] else [])
  {
  }

  /** Adding the last element of a list to either of two parts of the rest
      gives two parts of the whole. */
  lemma PartsSnoc<T>(kept: seq<T>, dropped: seq<T>, whole: seq<T>, kept': seq<T>, dropped': seq<T>)
    requires whole != []
    requires multiset(kept) + multiset(dropped) == multiset(whole[..|whole| - 1])
    requires var last := whole[|whole| - 1];
             (kept' == kept + [last] && dropped' == dropped) || (kept' == kept && dropped' == dropped + [last])
    ensures multiset(kept') + multiset(dropped') == multiset(whole)
  {
    var init, last := whole[..|whole| - 1], whole[|whole| - 1];
    assert whole == init + [last];
    assert multiset(whole) == multiset(init) + multiset{last};
  }

  /** Each image is kept or dropped, and nothing else is in either part. */
  lemma {:induction false} ImagesPartition(images: seq<Image>, keep: seq<string>)
    ensures multiset(Kept(images, keep)) + multiset(Dropped(images, keep)) == multiset(images)
  {
    if images != [] {
      var init := images[..|images| - 1];
      ImagesPartition(init, keep);
      KeptSnoc(images, keep);
      DroppedSnoc(images, keep);
      PartsSnoc(Kept(init, keep), Dropped(init, keep), images, Kept(images, keep), Dropped(images, keep));
    }
  }

  /** Each image lands in exactly one part. */
  lemma {:induction false} ImagesPartitionCount(images: seq<Image>, keep: seq<string>)
    ensures |Kept(images, keep)| + |Dropped(images, keep)| == |images|
  {
    if images != [] {
      ImagesPartitionCount(images[..|images| - 1], keep);
      KeptSnoc(images, keep);
      DroppedSnoc(images, keep);
    }
  }

  /** The kept images keep their order. */
  lemma {:induction false} KeptOrder(images: seq<Image>, keep: seq<string>)
    ensures IsSubsequence(Kept(images, keep), images)
  {
    if images != [] {
      var init, last := images[..|images| - 1], images[|images| - 1];
      KeptOrder(init, keep);
      KeptSnoc(images, keep);
      var k := Kept(images, keep);
      if last.url in keep {
        assert k[..|k| - 1] == Kept(init, keep);
      }
    }
  }

  /** The dropped images keep their order. */
  lemma {:induction false} DroppedOrder(images: seq<Image>, keep: seq<string>)
    ensures IsSubsequence(Dropped(images, keep), images)
  {
    if images != [] {
      var init, last := images[..|images| - 1], images[|images| - 1];
      DroppedOrder(init, keep);
      DroppedSnoc(images, keep);
      var d := Dropped(images, keep);
      if last.url !in keep {
        assert d[..|d| - 1] == Dropped(init, keep);
      }
    }
  }

  /** The keep list splits the stored images with nothing lost and nothing
      added: each image is kept or dropped, and both parts keep the order. */
  lemma ImagesSplit(images: seq<Image>, keep: seq<string>)
    ensures multiset(Kept(images, keep)) + multiset(Dropped(images, keep)) == multiset(images)
    ensures |Kept(images, keep)| + |Dropped(images, keep)| == |images|
    ensures IsSubsequence(Kept(images, keep), images) && IsSubsequence(Dropped(images, keep), images)
  {
    ImagesPartition(images, keep);
    ImagesPartitionCount(images, keep);
    KeptOrder(images, keep);
    DroppedOrder(images, keep);
  }

  /** The public ids of a list of images, in order. */
  function PublicIdList(images: seq<Image>): (r: seq<string>)
    ensures |r| == |images|
    ensures forall k :: 0 <= k < |images| ==> r[k] == images[k].publicId
  {
    seq(|images|, k requires 0 <= k < |images| => images[k].publicId)
  }

  /** The public ids of a list of images. */
  function PublicIds(images: seq<Image>): (r: set<string>)
    ensures forall k :: 0 <= k < |images| ==> images[k].publicId in r
    ensures forall p :: p in r ==> exists k :: 0 <= k < |images| && images[k].publicId == p
  {
    set k | 0 <= k < |images| :: images[k].publicId
  }

  lemma PublicIdsSnoc(images: seq<Image>, img: Image)
    ensures PublicIds(images + [img]) == PublicIds(images) + {img.publicId}
  {
    var all := images + [img];
    assert forall k :: 0 <= k < |images| ==> all[k] == images[k];
    assert all[|images|] == img;
  }

  /** The results of the uploads up to the first that failed, in file order. */
  function Succeeded(uploads: seq<Option<Image>>): (r: seq<Image>)
    ensures |r| <= |uploads|
    ensures forall k :: 0 <= k < |r| ==> uploads[k] == Some(r[k])
    ensures |r| < |uploads| ==> uploads[|r|].None?
  {
    if uploads == [] || uploads[0].None? then []
    else [uploads[0].value] + Succeeded(uploads[1..])
  }

  /** The upload results are the prefix of successes and nothing else. */
  lemma {:induction false} SucceededOf(uploads: seq<Option<Image>>, images: seq<Image>)
    requires |images| <= |uploads|
    requires forall k :: 0 <= k < |images| ==> uploads[k] == Some(images[k])
    requires |images| < |uploads| ==> uploads[|images|].None?
    ensures Succeeded(uploads) == images
  {
    if images != [] {
      SucceededOf(uploads[1..], images[1..]);
    }
  }

  /** The ids of a list of images, in order, after one more image. */
  lemma PublicIdListSnoc(images: seq<Image>, img: Image)
    ensures PublicIdList(images + [img]) == PublicIdList(images) + [img.publicId]
  {
  }

  // ---------------------------------------------------------------------
  // Requests and replies
  // ---------------------------------------------------------------------

  /** The form of a create or update request as the multipart parser
      delivers it: `None` for a field that was not sent. Numbers arrive as
      text; list fields may be repeated, sent as JSON text or comma-joined. */
  datatype Body = Body(
    ref: Option<string>, title: Option<string>, description: Option<string>,
    operationType: Option<string>, propertyType: Option<string>,
    price: Option<string>, measure: Option<string>, location: Option<string>,
    lat: Option<string>, lng: Option<string>,
    environments: Option<string>, bedrooms: Option<string>, bathrooms: Option<string>,
    condition: Option<string>, houseMeasures: Option<string>,
    services: Field, extras: Field, videoUrls: Field, keepImages: Field)

  /** Why a handler answered 500. */
  datatype Failure =
    | RefsExhausted
    | UploadFailed
    | SchemaRejected(errors: map<FieldName, Kind>)

  /** A handler's answer. The record replies carry the record and the
      `imageUrls` list added to its JSON form. */
  datatype Reply =
    | Created(id: Id, record: Record, imageUrls: seq<string>)
    | Updated(id: Id, record: Record, imageUrls: seq<string>)
    | Found(id: Id, record: Record, imageUrls: seq<string>)
    | Removed
    | NotFound
    | ServerError(failure: Failure)

  // ---------------------------------------------------------------------
  // What create and update store
  // ---------------------------------------------------------------------

  /** The slug of every stored record, by id ("" for a record without one). */
  function SlugsOf(store: map<Id, Record>): (r: map<Id, string>)
    ensures r.Keys == store.Keys
    ensures forall id :: id in r ==> r[id] == store[id].slug
  {
    map id | id in store :: store[id].slug
  }

  /** The trimmed request reference, "" when it was not sent or is blank. */
  function RequestRef(body: Body): (r: string)
    ensures Trimmed(r)
  {
    if body.ref.Some? then TrimIdempotent(body.ref.value); Trim(body.ref.value) else ""
  }

  /** The reference a create stores: the request's when it is not blank,
      otherwise the first free generated one (`None` when the random stream
      runs out). */
  function CreateRef(store: map<Id, Record>, body: Body, year: int, random: seq<nat>): (r: Option<string>)
    ensures RequestRef(body) != "" ==> r == Some(RequestRef(body))
    ensures r.Some? ==> r.value != ""
    ensures RequestRef(body) == "" && r.Some? ==> !RefTaken(store, r.value) && StartsWith(r.value, RefPrefix(year))
  {
    if RequestRef(body) != "" then Some(RequestRef(body))
    else
      FreeRefShape(store, year, random);
      FreeRef(store, year, random)
  }

  /** The reference an update stores: the request's when it is not blank,
      else the stored one when there is one, else a generated one. */
  function UpdateRef(store: map<Id, Record>, prop: Record, body: Body, year: int, random: seq<nat>): (r: Option<string>)
    ensures r.Some? ==> r.value != ""
    ensures prop.ref != "" ==> r.Some?
    ensures RequestRef(body) != "" ==> r == Some(RequestRef(body))
    ensures RequestRef(body) == "" && prop.ref != "" ==> r == Some(prop.ref)
    ensures RequestRef(body) == "" && prop.ref == "" ==> r == CreateRef(store, body, year, random)
  {
    if RequestRef(body) != "" then Some(RequestRef(body))
    else if prop.ref != "" then Some(prop.ref)
    else CreateRef(store, body, year, random)
  }

  /** `req.body.title || finalRef`: the text the create slug comes from. */
  function TitleForSlug(body: Body, ref: string): string {
    if body.title.Some? && body.title.value != "" then body.title.value else ref
  }

  /** The keyword inputs of a create: the form values as sent. */
  function CreateKeywordsInput(body: Body): Keywords.KwInput {
    Keywords.KwInput(body.title.GetOr(""), body.location.GetOr(""), body.operationType.GetOr(""),
                     ToNum(body.measure), body.propertyType.GetOr(""))
  }

  /** The document `Property.create` receives. `age` and `environmentsList`
      are not sent. */
  function CreateDraft(body: Body, ref: string, images: seq<Image>, videoUrls: seq<string>,
                       decodeJsonArray: string -> Option<seq<string>>): Draft {
    Draft(ref, "", body.title, body.description, body.operationType, body.propertyType,
          ToNum(body.price), ToNum(body.measure), body.location, ToNum(body.lat), ToNum(body.lng),
          ParseStringArray(body.services, decodeJsonArray), ParseStringArray(body.extras, decodeJsonArray),
          ToNum(body.environments), None, ToNum(body.bedrooms), ToNum(body.bathrooms), body.condition,
          None, ToNum(body.houseMeasures), images, videoUrls, [])
  }

  /** The validation errors of a create: they depend on the form alone. */
  function CreateErrors(body: Body): map<FieldName, Kind> {
    Errors(body.title, body.location, ToNum(body.measure), body.operationType)
  }

  /** The incoming title: the trimmed text when one was sent. */
  function IncomingTitle(body: Body): (r: Option<string>)
    ensures r.Some? ==> Trimmed(r.value)
  {
    if body.title.Some? then TrimIdempotent(body.title.value); Some(Trim(body.title.value)) else None
  }

  /** `titleChanged`: a non-blank incoming title other than the stored one. */
  predicate TitleChanged(prop: Record, body: Body) {
    IncomingTitle(body).Some? && IncomingTitle(body).value != "" && IncomingTitle(body).value != prop.title
  }

  /** The keep list of an update. */
  function KeepList(body: Body, decodeJsonArray: string -> Option<seq<string>>): seq<string> {
    ParseStringArray(body.keepImages, decodeJsonArray)
  }

  /** The document after the field assignments of an update: kept values
      for the fields assigned with `??`, the request's values for the
      others, the stored slug and keywords (replaced afterwards). */
  function UpdateDraft(prop: Record, body: Body, ref: string, images: seq<Image>, videoUrls: seq<string>,
                       decodeJsonArray: string -> Option<seq<string>>): Draft {
    Draft(ref, prop.slug, IncomingTitle(body).OrElse(Some(prop.title)), Some(body.description.GetOr(prop.description)),
          Some(body.operationType.GetOr(prop.operationType)), body.propertyType.OrElse(prop.propertyType),
          ToNum(body.price), ToNum(body.measure).OrElse(Some(prop.measure)), Some(body.location.GetOr(prop.location)),
          ToNum(body.lat), ToNum(body.lng),
          ParseStringArray(body.services, decodeJsonArray), ParseStringArray(body.extras, decodeJsonArray),
          ToNum(body.environments), Some(prop.environmentsList), ToNum(body.bedrooms), ToNum(body.bathrooms),
          body.condition.OrElse(prop.condition), prop.age,
          ToNum(body.houseMeasures).OrElse(prop.houseMeasures), images, videoUrls, prop.keywords)
  }

  /** The validation errors of an update: they depend on the stored record
      and the form alone. */
  function UpdateErrors(prop: Record, body: Body): map<FieldName, Kind> {
    Errors(IncomingTitle(body).OrElse(Some(prop.title)), Some(body.location.GetOr(prop.location)),
           ToNum(body.measure).OrElse(Some(prop.measure)), Some(body.operationType.GetOr(prop.operationType)))
  }

  /** The keyword inputs of an update: the document's values after the
      assignments, title and location as the trimming setters leave them. */
  function UpdateKeywordsInput(d: Draft): Keywords.KwInput {
    Keywords.KwInput(Trim(d.title.GetOr("")), Trim(d.location.GetOr("")), d.operationType.GetOr(""),
                     d.measure, d.propertyType.GetOr(""))
  }

  /** The document an update saves: the assigned values with the slug and
      the keywords set. */
  function Saved(d: Draft, slug: string, keywords: seq<string>): Draft {
    d.(slug := slug, keywords := keywords)
  }

  /** Setting the slug and keywords of a draft changes neither its errors
      nor whether it is stored, and the stored record carries that slug. */
  lemma SavedOutcome(d: Draft, slug: string, keywords: seq<string>)
    ensures Validate(Saved(d, slug, keywords)).Success? <==> DraftErrors(d) == map[]
    ensures Validate(Saved(d, slug, keywords)).Failure? ==> Validate(Saved(d, slug, keywords)).error == DraftErrors(d)
    ensures Validate(Saved(d, slug, keywords)).Success? ==> Validate(Saved(d, slug, keywords)).value.slug == slug
  {
    assert DraftErrors(Saved(d, slug, keywords)) == DraftErrors(d);
  }

  /** The addresses a create notifies: the new record's address. */
  function CreatePings(env: Option<string>, id: Id, slug: string): seq<string> {
    [PropertyUrl(env, id, slug)]
  }

  /** The addresses an update notifies: the new address, then the old one
      when the title changed and the old slug was set and is not the new one. */
  function UpdatePings(env: Option<string>, id: Id, titleChanged: bool, oldSlug: string, newSlug: string): (r: seq<string>)
    ensures 1 <= |r| <= 2 && r[0] == PropertyUrl(env, id, newSlug)
    ensures |r| == 2 <==> titleChanged && oldSlug != "" && oldSlug != newSlug
    ensures |r| == 2 ==> r[1] == PropertyUrl(env, id, oldSlug)
  {
    var newUrl := PropertyUrl(env, id, newSlug);
    var oldUrl := PropertyUrl(env, id, oldSlug);
    if titleChanged && oldSlug != "" && oldSlug != newSlug then [newUrl, oldUrl] else [newUrl]
  }

  /** The two addresses of an update are different. */
  lemma UpdatePingsDistinct(env: Option<string>, id: Id, titleChanged: bool, oldSlug: string, newSlug: string)
    requires NoneIn(id, {'/'})
    requires |UpdatePings(env, id, titleChanged, oldSlug, newSlug)| == 2
    ensures UpdatePings(env, id, titleChanged, oldSlug, newSlug)[0] != UpdatePings(env, id, titleChanged, oldSlug, newSlug)[1]
  {
    var r := UpdatePings(env, id, titleChanged, oldSlug, newSlug);
    if r[0] == r[1] {
      PropertyUrlInjective(env, id, newSlug, id, oldSlug);
    }
  }

  /** The errors a create reports are those of the form's title, location,
      measure and operation type. */
  lemma CreateValidation(body: Body, ref: string, images: seq<Image>, videoUrls: seq<string>,
                         decodeJsonArray: string -> Option<seq<string>>)
    ensures DraftErrors(CreateDraft(body, ref, images, videoUrls, decodeJsonArray)) == CreateErrors(body)
  {
  }

  /** The errors an update's save reports are those of the assigned title,
      location, measure and operation type. */
  lemma UpdateValidation(prop: Record, body: Body, ref: string, images: seq<Image>, videoUrls: seq<string>,
                         decodeJsonArray: string -> Option<seq<string>>)
    ensures DraftErrors(UpdateDraft(prop, body, ref, images, videoUrls, decodeJsonArray)) == UpdateErrors(prop, body)
  {
  }

  /** The keyword inputs read back from a stored record. */
  function RecordKeywordsInput(rec: Record): Keywords.KwInput {
    Keywords.KwInput(rec.title, rec.location, rec.operationType, Some(rec.measure), rec.propertyType.GetOr(""))
  }

  /** What a create stores for the form: the text as the trimming setters
      leave it, "" for a missing description, no dwelling-room list and no
      age; every number is the form's value read by `toNum` (null when left
      out or unreadable), and the lists are the parsed form lists. */
  lemma CreateStored(body: Body, ref: string, images: seq<Image>, videoUrls: seq<string>,
                     decodeJsonArray: string -> Option<seq<string>>, slug: string, keywords: seq<string>, rec: Record)
    requires Validate(Saved(CreateDraft(body, ref, images, videoUrls, decodeJsonArray), slug, keywords)) == Success(rec)
    ensures body.title.Some? && rec.title == Trim(body.title.value) && rec.title != ""
    ensures body.location.Some? && rec.location == Trim(body.location.value) && rec.location != ""
    ensures body.operationType == Some(rec.operationType) && rec.operationType in OperationTypes
    ensures ToNum(body.measure) == Some(rec.measure)
    ensures rec.description == body.description.GetOr("")
    ensures rec.environmentsList == [] && rec.age.None?
    ensures rec.propertyType == body.propertyType && rec.condition == body.condition
    ensures rec.price == ToNum(body.price)
    ensures rec.lat == ToNum(body.lat) && rec.lng == ToNum(body.lng)
    ensures rec.environments == ToNum(body.environments)
    ensures rec.bedrooms == ToNum(body.bedrooms) && rec.bathrooms == ToNum(body.bathrooms)
    ensures rec.houseMeasures == ToNum(body.houseMeasures)
    ensures rec.services == ParseStringArray(body.services, decodeJsonArray)
    ensures rec.extras == ParseStringArray(body.extras, decodeJsonArray)
    ensures rec.ref == ref && rec.slug == slug && rec.images == images && rec.videoUrls == videoUrls
    ensures rec.keywords == keywords
  {
  }

  /** The kept half of an update's merge rules: a field the form leaves
      out keeps its stored value (the `??` assignments), and so do the
      fields an update never assigns. */
  lemma UpdateKeeps(prop: Record, body: Body, ref: string, images: seq<Image>, videoUrls: seq<string>,
                    decodeJsonArray: string -> Option<seq<string>>, slug: string, keywords: seq<string>, rec: Record)
    requires SchemaValid(prop)
    requires Validate(Saved(UpdateDraft(prop, body, ref, images, videoUrls, decodeJsonArray), slug, keywords)) == Success(rec)
    ensures body.title.None? ==> rec.title == prop.title
    ensures body.location.None? ==> rec.location == prop.location
    ensures body.description.None? ==> rec.description == prop.description
    ensures body.operationType.None? ==> rec.operationType == prop.operationType
    ensures ToNum(body.measure).None? ==> rec.measure == prop.measure
    ensures body.propertyType.None? ==> rec.propertyType == prop.propertyType
    ensures body.condition.None? ==> rec.condition == prop.condition
    ensures ToNum(body.houseMeasures).None? ==> rec.houseMeasures == prop.houseMeasures
    ensures rec.environmentsList == prop.environmentsList && rec.age == prop.age
  {
    TrimOfTrimmed(prop.title);
    TrimOfTrimmed(prop.location);
  }

  /** The replaced half of an update's merge rules: sent text replaces the
      stored text as the setters trim it, a sent `??` field replaces the
      stored one, the numbers assigned without `??` are the form's values
      (cleared when left out), the lists are replaced, and the reference,
      slug, images, links and keywords are the ones computed. */
  lemma UpdateReplaces(prop: Record, body: Body, ref: string, images: seq<Image>, videoUrls: seq<string>,
                       decodeJsonArray: string -> Option<seq<string>>, slug: string, keywords: seq<string>, rec: Record)
    requires Validate(Saved(UpdateDraft(prop, body, ref, images, videoUrls, decodeJsonArray), slug, keywords)) == Success(rec)
    ensures body.title.Some? ==> rec.title == Trim(body.title.value)
    ensures body.location.Some? ==> rec.location == Trim(body.location.value)
    ensures body.description.Some? ==> rec.description == body.description.value
    ensures body.operationType.Some? ==> rec.operationType == body.operationType.value
    ensures ToNum(body.measure).Some? ==> rec.measure == ToNum(body.measure).value
    ensures body.propertyType.Some? ==> rec.propertyType == body.propertyType
    ensures body.condition.Some? ==> rec.condition == body.condition
    ensures ToNum(body.houseMeasures).Some? ==> rec.houseMeasures == ToNum(body.houseMeasures)
    ensures rec.price == ToNum(body.price)
    ensures rec.lat == ToNum(body.lat) && rec.lng == ToNum(body.lng)
    ensures rec.environments == ToNum(body.environments)
    ensures rec.bedrooms == ToNum(body.bedrooms) && rec.bathrooms == ToNum(body.bathrooms)
    ensures rec.services == ParseStringArray(body.services, decodeJsonArray)
    ensures rec.extras == ParseStringArray(body.extras, decodeJsonArray)
    ensures rec.ref == ref && rec.slug == slug && rec.images == images && rec.videoUrls == videoUrls
    ensures rec.keywords == keywords
  {
    if body.title.Some? {
      TrimIdempotent(body.title.value);
    }
  }

  /** The keywords an update stores are those of the record it stores: they
      are computed after the assignments, from the values the setters leave. */
  lemma UpdateKeywordsFollowRecord(d: Draft, slug: string, rec: Record)
    requires Validate(Saved(d, slug, Keywords.Keywords(UpdateKeywordsInput(d)))) == Success(rec)
    ensures rec.keywords == Keywords.Keywords(RecordKeywordsInput(rec))
  {
    assert UpdateKeywordsInput(d) == RecordKeywordsInput(rec);
  }

  /** Sending the stored title again, with or without surrounding blanks,
      is not a title change; so the slug stays. */
  lemma ResentTitleUnchanged(prop: Record, body: Body)
    requires SchemaValid(prop)
    requires body.title.Some? && Trim(body.title.value) == Trim(prop.title)
    ensures !TitleChanged(prop, body)
  {
    TrimOfTrimmed(prop.title);
  }

  /** The image list an update stores: the kept images, in their order,
      then every upload. */
  lemma UpdateImages(prop: Record, keep: seq<string>, uploads: seq<Option<Image>>)
    requires |Succeeded(uploads)| == |uploads|
    ensures var images := Kept(prop.images, keep) + Succeeded(uploads);
            |images| == |prop.images| - |Dropped(prop.images, keep)| + |uploads|
            && IsSubsequence(Kept(prop.images, keep), prop.images)
            && forall k :: 0 <= k < |uploads| ==> uploads[k] == Some(images[|Kept(prop.images, keep)| + k])
  {
    ImagesSplit(prop.images, keep);
  }

  /** The slug a create gives: the first slug derived from the title that
      no record holds. */
  ghost predicate FreshSlug(store: map<Id, Record>, title: string, slug: string) {
    Slug.IsUniqueSlug(SlugsOf(store), title, None, slug)
  }

  /** The slug an update keeps: the stored one unless the title changed,
      then the first slug derived from the new title that no other record
      holds. */
  ghost predicate SlugRule(store: map<Id, Record>, id: Id, body: Body, slug: string)
    requires id in store
  {
    if TitleChanged(store[id], body)
    then Slug.IsUniqueSlug(SlugsOf(store), IncomingTitle(body).value, Some(id), slug)
    else slug == store[id].slug
  }

  // ---------------------------------------------------------------------
  // Store invariant
  // ---------------------------------------------------------------------

  /** Every stored record passes the schema and has an id without `/`, and no
      two records share a slug. */
  ghost predicate StoreValid(store: map<Id, Record>) {
    (forall id :: id in store ==> SchemaValid(store[id]) && NoneIn(id, {'/'}))
    && (forall i, j :: i in store && j in store && i != j && store[i].slug != "" ==> store[i].slug != store[j].slug)
  }

  /** Writing a valid record whose slug no other record holds keeps the store valid. */
  lemma PutValid(store: map<Id, Record>, id: Id, rec: Record)
    requires StoreValid(store) && SchemaValid(rec) && NoneIn(id, {'/'})
    requires forall j :: j in store && j != id ==> store[j].slug != rec.slug || rec.slug == ""
    ensures StoreValid(store[id := rec])
  {
    var s := store[id := rec];
    forall i, j | i in s && j in s && i != j && s[i].slug != ""
      ensures s[i].slug != s[j].slug
    {
      if i == id {
        assert store[j].slug != rec.slug;
      } else if j == id {
        assert store[i].slug != rec.slug || rec.slug == "";
      }
    }
  }

  /** A slug free for a record is held by no other record. */
  lemma FreeSlugUnheld(store: map<Id, Record>, slug: string, exclude: Option<Id>)
    requires !Slug.Taken(SlugsOf(store), slug, exclude)
    ensures forall j :: j in store && Some(j) != exclude ==> store[j].slug != slug
  {
    forall j | j in store && Some(j) != exclude
      ensures store[j].slug != slug
    {
      assert SlugsOf(store)[j] == store[j].slug;
    }
  }

  // ---------------------------------------------------------------------
  // The service
  // ---------------------------------------------------------------------

  /** The controller with the state it works on: the record collection, the
      image store (by public id), the destroy calls made and the address
      batches sent to the search-engine notifier. The environment, the URL
      parser, `JSON.parse` on arrays and the ObjectId syntax check are fixed
      at construction. */
  class PropertyService {
    var store: map<Id, Record>
    var objects: set<string>
    var destroyLog: seq<string>
    var pings: seq<seq<string>>

    const env: Option<string>
    const parseUrl: string -> Option<VideoUrls.Url>
    const decodeJsonArray: string -> Option<seq<string>>
    const isObjectId: string -> bool

    ghost predicate Valid()
      reads this
    {
      StoreValid(store)
    }

    constructor(env: Option<string>, parseUrl: string -> Option<VideoUrls.Url>,
                decodeJsonArray: string -> Option<seq<string>>, isObjectId: string -> bool)
      ensures Valid()
      ensures store == map[] && objects == {} && destroyLog == [] && pings == []
      ensures this.env == env && this.parseUrl == parseUrl
      ensures this.decodeJsonArray == decodeJsonArray && this.isObjectId == isObjectId
    {
      this.env := env;
      this.parseUrl := parseUrl;
      this.decodeJsonArray := decodeJsonArray;
      this.isObjectId := isObjectId;
      store := map[];
      objects := {};
      destroyLog := [];
      pings := [];
    }

    /** `generateUniqueRef`: tries the candidates of the random stream in
        turn until one is held by no record. */
    method GenerateUniqueRef(year: int, random: seq<nat>) returns (ref: Option<string>)
      ensures ref == FreeRef(store, year, random)
    {
      var k: nat := 0;
      while HasAttempt(random, k) && RefTaken(store, RefCandidate(year, random, k))
        invariant FreeRefFrom(store, year, random, k) == FreeRef(store, year, random)
        decreases |random| - RefSuffixLength * k
      {
        k := k + 1;
      }
      if HasAttempt(random, k) {
        ref := Some(RefCandidate(year, random, k));
      } else {
        ref := None;
      }
    }

    /** The upload loop: each file in turn, stopping at the first upload
        that throws. `uploads` holds what each upload gives, `None` for one
        that throws. */
    method UploadAll(uploads: seq<Option<Image>>) returns (images: seq<Image>, ok: bool)
      modifies this
      ensures images == Succeeded(uploads)
      ensures ok <==> |images| == |uploads|
      ensures objects == old(objects) + PublicIds(images)
      ensures store == old(store) && destroyLog == old(destroyLog) && pings == old(pings)
    {
      images := [];
      var i := 0;
      while i < |uploads| && uploads[i].Some?
        invariant 0 <= i <= |uploads| && |images| == i
        invariant forall k :: 0 <= k < i ==> uploads[k] == Some(images[k])
        invariant objects == old(objects) + PublicIds(images)
        invariant store == old(store) && destroyLog == old(destroyLog) && pings == old(pings)
      {
        var img := uploads[i].value;
        PublicIdsSnoc(images, img);
        images := images + [img];
        objects := objects + {img.publicId};
        i := i + 1;
      }
      SucceededOf(uploads, images);
      ok := i == |uploads|;
    }

    /** The destroy loop: a destroy call for each image in turn; a call that
        throws (its public id is in `failing`) leaves the object in place
        and the loop goes on. */
    method DestroyAll(images: seq<Image>, failing: set<string>)
      modifies this
      ensures destroyLog == old(destroyLog) + PublicIdList(images)
      ensures objects == old(objects) - (PublicIds(images) - failing)
      ensures store == old(store) && pings == old(pings)
    {
      var i := 0;
      while i < |images|
        invariant 0 <= i <= |images|
        invariant destroyLog == old(destroyLog) + PublicIdList(images[..i])
        invariant objects == old(objects) - (PublicIds(images[..i]) - failing)
        invariant store == old(store) && pings == old(pings)
      {
        var img := images[i];
        assert images[..i + 1] == images[..i] + [img];
        PublicIdsSnoc(images[..i], img);
        PublicIdListSnoc(images[..i], img);
        destroyLog := destroyLog + [img.publicId];
        if img.publicId !in failing {
          objects := objects - {img.publicId};
        }
        i := i + 1;
      }
      assert images[..i] == images;
    }

    /** The record a create stores for the form's values and their
        keywords: the first free slug for `title`, as the schema casts it. */
    ghost predicate NewRecord(oldStore: map<Id, Record>, title: string, draft: Draft, keywords: seq<string>, rec: Record) {
      FreshSlug(oldStore, title, rec.slug) && Validate(Saved(draft, rec.slug, keywords)) == Success(rec)
    }

    /** What a successful create stores. */
    ghost predicate CreatedAs(oldStore: map<Id, Record>, body: Body, year: int, random: seq<nat>,
                              uploads: seq<Option<Image>>, rec: Record)
    {
      var ref := CreateRef(oldStore, body, year, random);
      ref.Some? && |Succeeded(uploads)| == |uploads|
      && NewRecord(oldStore, TitleForSlug(body, ref.value),
                   CreateDraft(body, ref.value, Succeeded(uploads), VideoUrls.NormalizeVideoUrls(body.videoUrls, parseUrl),
                               decodeJsonArray),
                   Keywords.Keywords(CreateKeywordsInput(body)), rec)
    }

    /** `create` or `save` of a record the schema accepted, under a slash-free
        id and with a slug no other record holds: the invariant is kept and
        nothing else changes. */
    method Put(id: Id, rec: Record)
      requires Valid() && SchemaValid(rec) && NoneIn(id, {'/'})
      requires forall j :: j in store && j != id ==> store[j].slug != rec.slug || rec.slug == ""
      modifies this
      ensures Valid()
      ensures store == old(store)[id := rec]
      ensures objects == old(objects) && destroyLog == old(destroyLog) && pings == old(pings)
    {
      PutValid(store, id, rec);
      store := store[id := rec];
    }

    /** `notifySearchEngines(urls)`, fire and forget: the batch of addresses
        is appended to the notification log and nothing else changes. */
    method Notify(urls: seq<string>)
      modifies this
      ensures pings == old(pings) + [urls]
      ensures store == old(store) && objects == old(objects) && destroyLog == old(destroyLog)
    {
      pings := pings + [urls];
    }

    /** The slug step of `createProperty`: the first slug derived from the
        title that no record holds. */
    method CreateSlug(title: string) returns (slug: string)
      ensures FreshSlug(store, title, slug)
      ensures forall j :: j in store ==> store[j].slug != slug
    {
      slug := Slug.MakeUniqueSlug(SlugsOf(store), title, None);
      FreeSlugUnheld(store, slug, None);
    }

    /** The last steps of `createProperty`, once the form's values are
        read: the slug, then the record is stored and its address notified. */
    method CreateRecord(title: string, draft: Draft, keywords: seq<string>, newId: Id) returns (reply: Reply)
      requires Valid()
      requires newId !in store && NoneIn(newId, {'/'})
      modifies this
      ensures Valid()
      ensures objects == old(objects) && destroyLog == old(destroyLog)
      ensures reply.Created? || reply == ServerError(SchemaRejected(DraftErrors(draft)))
      ensures reply.Created? <==> DraftErrors(draft) == map[]
      ensures reply.Created? ==>
                reply.id == newId && NewRecord(old(store), title, draft, keywords, reply.record)
                && store == old(store)[newId := reply.record]
                && reply.imageUrls == ImageUrls(reply.record.images)
      ensures !reply.Created? ==> store == old(store)
      ensures pings == old(pings)
    {
      var slug := CreateSlug(title);
      SavedOutcome(draft, slug, keywords);
      var outcome := Validate(Saved(draft, slug, keywords));
      if outcome.Failure? {
        reply := ServerError(SchemaRejected(outcome.error));
        return;
      }
      var rec := outcome.value;
      Put(newId, rec);
      reply := Created(newId, rec, ImageUrls(rec.images));
    }

    /** `createProperty`: the reference, the uploads, the links and the
        keywords, then the record. */
    method Create(body: Body, newId: Id, year: int, random: seq<nat>, uploads: seq<Option<Image>>)
      returns (reply: Reply)
      requires Valid()
      requires newId !in store && NoneIn(newId, {'/'})
      modifies this
      ensures Valid()
      ensures reply.Created? || reply.ServerError?
      ensures destroyLog == old(destroyLog)
      ensures CreateRef(old(store), body, year, random).None? ==> reply == ServerError(RefsExhausted) && objects == old(objects)
      ensures CreateRef(old(store), body, year, random).Some? ==> objects == old(objects) + PublicIds(Succeeded(uploads))
      ensures reply == ServerError(UploadFailed)
              <==> CreateRef(old(store), body, year, random).Some? && |Succeeded(uploads)| < |uploads|
      ensures reply.Created?
              <==> CreateRef(old(store), body, year, random).Some? && |Succeeded(uploads)| == |uploads| && CreateErrors(body) == map[]
      ensures reply.ServerError? && reply.failure.SchemaRejected? ==> reply.failure.errors == CreateErrors(body)
      ensures reply.Created? ==>
                reply.id == newId && CreatedAs(old(store), body, year, random, uploads, reply.record)
                && store == old(store)[newId := reply.record]
                && pings == old(pings) + [CreatePings(env, newId, reply.record.slug)]
                && reply.imageUrls == ImageUrls(reply.record.images)
      ensures !reply.Created? ==> store == old(store) && pings == old(pings)
    {
      var ref := RequestRef(body);
      if ref == "" {
        var generated := GenerateUniqueRef(year, random);
        if generated.None? {
          reply := ServerError(RefsExhausted);
          return;
        }
        ref := generated.value;
      }
      assert CreateRef(store, body, year, random) == Some(ref);
      var images, ok := UploadAll(uploads);
      if !ok {
        reply := ServerError(UploadFailed);
        return;
      }
      var videoUrls := VideoUrls.NormalizeVideoUrls(body.videoUrls, parseUrl);
      var draft := CreateDraft(body, ref, images, videoUrls, decodeJsonArray);
      var keywords := Keywords.GenerateKeywords(CreateKeywordsInput(body));
      CreateValidation(body, ref, images, videoUrls, decodeJsonArray);
      reply := CreateRecord(TitleForSlug(body, ref), draft, keywords, newId);
      if reply.Created? {
        Notify(CreatePings(env, newId, reply.record.slug));
      }
    }

    /** The record an update saves for a stored record and the document
        after the assignments, with the computed keywords: a new slug only
        when the title changed. */
    ghost predicate SavedAs(oldStore: map<Id, Record>, id: Id, body: Body, draft: Draft, keywords: seq<string>, rec: Record)
      requires id in oldStore
    {
      SlugRule(oldStore, id, body, rec.slug) && Validate(Saved(draft, rec.slug, keywords)) == Success(rec)
    }

    /** The slug step of `updateProperty`: the stored slug, or a fresh one
        when the title changed. */
    method UpdateSlug(id: Id, body: Body) returns (slug: string)
      requires Valid() && id in store
      ensures SlugRule(store, id, body, slug)
      ensures forall j :: j in store && j != id ==> store[j].slug != slug || slug == ""
    {
      slug := store[id].slug;
      if TitleChanged(store[id], body) {
        slug := Slug.MakeUniqueSlug(SlugsOf(store), IncomingTitle(body).value, Some(id));
        FreeSlugUnheld(store, slug, Some(id));
      }
    }

    /** What a successful update stores: the assigned fields, the keywords
        of the assigned values, the slug rule. */
    ghost predicate UpdatedAs(oldStore: map<Id, Record>, id: Id, body: Body, year: int, random: seq<nat>,
                              uploads: seq<Option<Image>>, rec: Record)
      requires id in oldStore
    {
      var prop := oldStore[id];
      var ref := UpdateRef(oldStore, prop, body, year, random);
      ref.Some? && |Succeeded(uploads)| == |uploads|
      && var draft := UpdateDraft(prop, body, ref.value, Kept(prop.images, KeepList(body, decodeJsonArray)) + Succeeded(uploads),
                                  VideoUrls.NormalizeVideoUrls(body.videoUrls, parseUrl), decodeJsonArray);
         SavedAs(oldStore, id, body, draft, Keywords.Keywords(UpdateKeywordsInput(draft)), rec)
    }

    /** The last steps of `updateProperty`, once the document holds the
        assigned values: the slug, the save and the notification. */
    method SaveRecord(id: Id, body: Body, draft: Draft, keywords: seq<string>) returns (reply: Reply)
      requires Valid() && id in store
      modifies this
      ensures Valid()
      ensures objects == old(objects) && destroyLog == old(destroyLog)
      ensures reply.Updated? || reply == ServerError(SchemaRejected(DraftErrors(draft)))
      ensures reply.Updated? <==> DraftErrors(draft) == map[]
      ensures reply.Updated? ==>
                reply.id == id && SavedAs(old(store), id, body, draft, keywords, reply.record)
                && store == old(store)[id := reply.record]
                && reply.imageUrls == ImageUrls(reply.record.images)
      ensures !reply.Updated? ==> store == old(store)
      ensures pings == old(pings)
    {
      var slug := UpdateSlug(id, body);
      SavedOutcome(draft, slug, keywords);
      var outcome := Validate(Saved(draft, slug, keywords));
      if outcome.Failure? {
        reply := ServerError(SchemaRejected(outcome.error));
        return;
      }
      var rec := outcome.value;
      Put(id, rec);
      reply := Updated(id, rec, ImageUrls(rec.images));
    }

    /** `updateProperty`: 404 for an unknown id; otherwise destroy the images
        left out of the keep list, upload the new files, settle the
        reference, assign the fields and compute the keywords, then save. */
    method Update(id: Id, body: Body, year: int, random: seq<nat>, uploads: seq<Option<Image>>, failing: set<string>)
      returns (reply: Reply)
      requires Valid()
      modifies this
      ensures Valid()
      ensures reply.Updated? || reply.NotFound? || reply.ServerError?
      ensures reply.NotFound? <==> id !in old(store)
      ensures id !in old(store) ==>
                store == old(store) && objects == old(objects) && destroyLog == old(destroyLog) && pings == old(pings)
      ensures id in old(store) ==>
                var dropped := Dropped(old(store)[id].images, KeepList(body, decodeJsonArray));
                destroyLog == old(destroyLog) + PublicIdList(dropped)
                && objects == old(objects) - (PublicIds(dropped) - failing) + PublicIds(Succeeded(uploads))
      ensures reply == ServerError(UploadFailed) <==> id in old(store) && |Succeeded(uploads)| < |uploads|
      ensures reply == ServerError(RefsExhausted)
              <==> id in old(store) && |Succeeded(uploads)| == |uploads|
                   && UpdateRef(old(store), old(store)[id], body, year, random).None?
      ensures reply.Updated?
              <==> id in old(store) && |Succeeded(uploads)| == |uploads|
                   && UpdateRef(old(store), old(store)[id], body, year, random).Some?
                   && UpdateErrors(old(store)[id], body) == map[]
      ensures reply.ServerError? && reply.failure.SchemaRejected? ==>
                id in old(store) && reply.failure.errors == UpdateErrors(old(store)[id], body)
      ensures reply.Updated? ==>
                id in old(store) && reply.id == id && UpdatedAs(old(store), id, body, year, random, uploads, reply.record)
                && store == old(store)[id := reply.record]
                && pings == old(pings) + [UpdatePings(env, id, TitleChanged(old(store)[id], body),
                                                      old(store)[id].slug, reply.record.slug)]
                && reply.imageUrls == ImageUrls(reply.record.images)
      ensures !reply.Updated? ==> store == old(store) && pings == old(pings)
    {
      if id !in store {
        reply := NotFound;
        return;
      }
      var prop := store[id];
      var keep := KeepList(body, decodeJsonArray);
      DestroyAll(Dropped(prop.images, keep), failing);
      var uploaded, ok := UploadAll(uploads);
      if !ok {
        reply := ServerError(UploadFailed);
        return;
      }
      var ref := RequestRef(body);
      if ref == "" {
        ref := prop.ref;
      }
      if ref == "" {
        var generated := GenerateUniqueRef(year, random);
        if generated.None? {
          reply := ServerError(RefsExhausted);
          return;
        }
        ref := generated.value;
      }
      assert UpdateRef(store, prop, body, year, random) == Some(ref);
      var images := Kept(prop.images, keep) + uploaded;
      var videoUrls := VideoUrls.NormalizeVideoUrls(body.videoUrls, parseUrl);
      var draft := UpdateDraft(prop, body, ref, images, videoUrls, decodeJsonArray);
      var keywords := Keywords.GenerateKeywords(UpdateKeywordsInput(draft));
      UpdateValidation(prop, body, ref, images, videoUrls, decodeJsonArray);
      var titleChanged := TitleChanged(prop, body);
      reply := SaveRecord(id, body, draft, keywords);
      if reply.Updated? {
        Notify(UpdatePings(env, id, titleChanged, prop.slug, reply.record.slug));
      }
    }

    /** `deleteProperty`: the address is taken first, then every image is
        destroyed (failures ignored), the record removed and the address
        notified. */
    method Delete(id: Id, failing: set<string>) returns (reply: Reply)
      requires Valid()
      modifies this
      ensures Valid()
      ensures id !in old(store) ==>
                reply == NotFound && store == old(store) && objects == old(objects)
                && destroyLog == old(destroyLog) && pings == old(pings)
      ensures id in old(store) ==>
                reply == Removed && store == old(store) - {id}
                && destroyLog == old(destroyLog) + PublicIdList(old(store)[id].images)
                && objects == old(objects) - (PublicIds(old(store)[id].images) - failing)
                && pings == old(pings) + [[PropertyUrl(env, id, old(store)[id].slug)]]
    {
      if id !in store {
        reply := NotFound;
        return;
      }
      var prop := store[id];
      var url := PropertyUrl(env, id, prop.slug);
      DestroyAll(prop.images, failing);
      store := store - {id};
      pings := pings + [[url]];
      reply := Removed;
    }

    /** `getPropertyByIdOrSlug`: by id when the key is an ObjectId held by a
        record, otherwise by slug; 404 when neither finds one. */
    method GetByIdOrSlug(key: string) returns (reply: Reply)
      ensures reply.Found? || reply.NotFound?
      ensures isObjectId(key) && key in store ==> reply == Found(key, store[key], ImageUrls(store[key].images))
      ensures !(isObjectId(key) && key in store) ==>
                (reply.Found? <==> key != "" && exists id :: id in store && store[id].slug == key)
      ensures !(isObjectId(key) && key in store) && reply.Found? ==>
                reply.id in store && store[reply.id].slug == key && reply.record == store[reply.id]
                && reply.imageUrls == ImageUrls(reply.record.images)
    {
      if isObjectId(key) && key in store {
        reply := Found(key, store[key], ImageUrls(store[key].images));
      } else if key != "" && exists id :: id in store && store[id].slug == key {
        var id :| id in store && store[id].slug == key;
        reply := Found(id, store[id], ImageUrls(store[id].images));
      } else {
        reply := NotFound;
      }
    }
  }
}
