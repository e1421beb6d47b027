/** The property record and the rules the document schema enforces when a
    record is created or saved (src/models/Property.ts): trimmed required
    text, the operation-type enumeration, the required measure and the
    defaults of the optional fields. */
module PropertySchema {
  import opened Wrappers
  import opened Text

  /** A stored image: its public address and its id in the image store. */
  datatype Image = Image(url: string, publicId: string)

  /** The record as the controller writes it. "" stands for a missing
      reference or slug; `None` for a null or missing number or text. */
  datatype Record = Record(
    ref: string,
    slug: string,
    title: string,
    description: string,
    operationType: string,
    propertyType: Option<string>,
    price: Option<int>,
    measure: int,
    location: string,
    lat: Option<int>,
    lng: Option<int>,
    services: seq<string>,
    extras: seq<string>,
    environments: Option<int>,
    environmentsList: seq<string>,
    bedrooms: Option<int>,
    bathrooms: Option<int>,
    condition: Option<string>,
    age: Option<string>,
    houseMeasures: Option<int>,
    images: seq<Image>,
    videoUrls: seq<string>,
    keywords: seq<string>)

  /** The values handed to the document before the schema runs: `None` for
      a field left undefined. */
  datatype Draft = Draft(
    ref: string,
    slug: string,
    title: Option<string>,
    description: Option<string>,
    operationType: Option<string>,
    propertyType: Option<string>,
    price: Option<int>,
    measure: Option<int>,
    location: Option<string>,
    lat: Option<int>,
    lng: Option<int>,
    services: seq<string>,
    extras: seq<string>,
    environments: Option<int>,
    environmentsList: Option<seq<string>>,
    bedrooms: Option<int>,
    bathrooms: Option<int>,
    condition: Option<string>,
    age: Option<string>,
    houseMeasures: Option<int>,
    images: seq<Image>,
    videoUrls: seq<string>,
    keywords: seq<string>)

  /** The two operation types the enumeration admits. */
  const OperationTypes: set<string> := {"Venta", "Arrendamiento"}

  /** The validated fields. */
  datatype FieldName = Title | Location | Measure | OperationType

  /** Which validator of a field failed. */
  datatype Kind = Required | NotInEnum

  /** A required text: present and not empty once trimmed. */
  predicate PresentText(v: Option<string>) {
    v.Some? && Trim(v.value) != ""
  }

  /** The first validator of a field that fails, given the four values the
      validators look at: the trimming setters run first, so blank text
      counts as missing; `required` is checked before the enumeration. */
  function FieldError(title: Option<string>, location: Option<string>, measure: Option<int>,
                      operationType: Option<string>, f: FieldName): Option<Kind> {
    match f
    case Title => if PresentText(title) then None else Some(Required)
    case Location => if PresentText(location) then None else Some(Required)
    case Measure => if measure.Some? then None else Some(Required)
    case OperationType =>
      if operationType.None? || operationType.value == "" then Some(Required)
      else if operationType.value !in OperationTypes then Some(NotInEnum)
      else None
  }

  /** Every validator passes. */
  predicate Acceptable(d: Draft) {
    PresentText(d.title) && PresentText(d.location) && d.measure.Some?
    && d.operationType.Some? && d.operationType.value in OperationTypes
  }

  /** The validation errors, one per failing field (validation reports every
      failing field at once). Only the title, the location, the measure and
      the operation type are validated. */
  function Errors(title: Option<string>, location: Option<string>, measure: Option<int>,
                  operationType: Option<string>): (r: map<FieldName, Kind>)
    ensures Title in r <==> !PresentText(title)
    ensures Location in r <==> !PresentText(location)
    ensures Measure in r <==> measure.None?
    ensures OperationType in r <==> operationType.None? || operationType.value !in OperationTypes
    ensures OperationType in r && operationType.Some? && operationType.value != "" ==> r[OperationType] == NotInEnum
    ensures forall f :: f in r ==> r[f] == Required || f == OperationType
    ensures r == map[] <==> PresentText(title) && PresentText(location) && measure.Some?
                            && operationType.Some? && operationType.value in OperationTypes
  {
    var r := map f: FieldName | f in {Title, Location, Measure, OperationType}
                                && FieldError(title, location, measure, operationType, f).Some?
               :: FieldError(title, location, measure, operationType, f).value;
    assert forall f :: f in r <==> FieldError(title, location, measure, operationType, f).Some?;
    r
  }

  /** The validation errors of a draft. */
  function DraftErrors(d: Draft): (r: map<FieldName, Kind>)
    ensures r == map[] <==> Acceptable(d)
  {
    Errors(d.title, d.location, d.measure, d.operationType)
  }

  /** What the schema makes of a valid draft: trimmed title and location,
      "" for a missing description, `[]` for a missing dwelling-room list
      (the null defaults are the `None` already there). */
  function Apply(d: Draft): (r: Record)
    requires Acceptable(d)
  {
    Record(d.ref, d.slug, Trim(d.title.value), d.description.GetOr(""), d.operationType.value,
           d.propertyType, d.price, d.measure.value, Trim(d.location.value), d.lat, d.lng,
           d.services, d.extras, d.environments, d.environmentsList.GetOr([]), d.bedrooms,
           d.bathrooms, d.condition, d.age, d.houseMeasures, d.images, d.videoUrls, d.keywords)
  }

  /** A record the schema accepts as stored. */
  predicate SchemaValid(r: Record) {
    r.title != "" && Trimmed(r.title)
    && r.location != "" && Trimmed(r.location)
    && r.operationType in OperationTypes
  }

  /** Casting and validating a draft, as on `create` and `save`: the stored
      record, or every violation. */
  function Validate(d: Draft): (r: Result<Record, map<FieldName, Kind>>)
    ensures r.Success? <==> Acceptable(d)
    ensures r.Failure? ==> r.error == DraftErrors(d)
    ensures r.Success? ==> SchemaValid(r.value)
  {
    if Acceptable(d) then
      TrimIdempotent(d.title.value);
      TrimIdempotent(d.location.value);
      Success(Apply(d))
    else Failure(DraftErrors(d))
  }

  /** A stored record as a draft: every field set. */
  function DraftOf(r: Record): Draft {
    Draft(r.ref, r.slug, Some(r.title), Some(r.description), Some(r.operationType), r.propertyType,
          r.price, Some(r.measure), Some(r.location), r.lat, r.lng, r.services, r.extras,
          r.environments, Some(r.environmentsList), r.bedrooms, r.bathrooms, r.condition, r.age,
          r.houseMeasures, r.images, r.videoUrls, r.keywords)
  }

  /** Saving a valid record unchanged stores it as it is. */
  lemma ValidateStored(r: Record)
    requires SchemaValid(r)
    ensures Validate(DraftOf(r)) == Success(r)
  {
    var d := DraftOf(r);
    assert Acceptable(d) by {
      TrimOfTrimmed(r.title);
      TrimOfTrimmed(r.location);
    }
    assert Apply(d) == r by {
      TrimOfTrimmed(r.title);
      TrimOfTrimmed(r.location);
    }
  }

  /** The defaults: a draft that sets only the required fields gets an empty
      description, null numbers and condition, and empty lists. */
  lemma Defaults(title: string, operationType: string, measure: int, location: string)
    requires Trim(title) != "" && Trim(location) != "" && operationType in OperationTypes
    ensures var d := Draft("", "", Some(title), None, Some(operationType), None, None, Some(measure),
                           Some(location), None, None, [], [], None, None, None, None, None, None,
                           None, [], [], []);
            Validate(d).Success?
            && var r := Validate(d).value;
               r.description == "" && r.price.None? && r.lat.None? && r.lng.None?
               && r.environments.None? && r.bedrooms.None? && r.bathrooms.None?
               && r.condition.None? && r.age.None? && r.houseMeasures.None?
               && r.services == [] && r.extras == [] && r.environmentsList == [] && r.videoUrls == []
               && r.title == Trim(title) && r.location == Trim(location)
  {
  }

  /** The public addresses of the record's images, in order. */
  function ImageUrls(images: seq<Image>): (r: seq<string>)
    ensures |r| == |images|
    ensures forall k :: 0 <= k < |images| ==> r[k] == images[k].url
  {
    seq(|images|, k requires 0 <= k < |images| => images[k].url)
  }
}
