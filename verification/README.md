# Property records of a real-estate listing backend, in Dafny

This project models the core of a real-estate listing backend (an Express
and Mongoose service) and proves properties of that model. The backend keeps
property records. It normalises the multipart form a client sends into the
record schema and keeps the record's images in an external image store. It
gives each record a human-readable reference (`BARR-<year>-XXXXXX`) and a
unique URL slug. It derives search keywords from the title, location,
operation type and size. It notifies search engines of the record's
canonical address, and it serves a sitemap and a `robots.txt`.

The model is split into one module per source file:

- `Wrappers` (wrappers.dfy): `Option` for JavaScript's `undefined`/`null`,
  and `Result`.
- `Text` (text.dfy): the string operations the code relies on. These are
  `trim`, `toLowerCase`, the accent stripping of `normalize("NFD")`,
  `split`/`join`, and decimal rendering of integers.
- `Form` (form.dfy): the controller's request helpers. These are `toNum`,
  `parseStringArray`, and the paging and search arithmetic of the listing
  handler.
- `Slug` (slug.dfy): `slugify`, and `makeUniqueSlug` as a loop over the
  candidates `base`, `base-2`, `base-3`, ….
- `Keywords` (keywords.dfy): `dedupe`, `norm`,
  `wordsFromTitle`, `placesFromLocation` and `opVariants`.
  `generateKeywords` is a method whose nested loops are proved against a
  phrase-list specification.
- `VideoUrls` (videourls.dfy): `normalizeVideoUrls` and
  `isLikelyVideoUrl`.
- `Seo` (seo.dfy): `baseUrl`, the `robots.txt` text and the sitemap
  document, with a reader for the sitemap that the document round-trips
  through.
- `PropertySchema` (schema.dfy): the record, the validators of the
  document schema (required, trimmed, enumeration), and the defaults.
- `PropertyController` (controller.dfy) holds the rest of the controller:
  - the reference generator;
  - the canonical address;
  - the keep/destroy bookkeeping of images;
  - the class `PropertyService`. Its fields are the record store, the set
    of objects in the image store, the log of destroy calls and the log of
    address batches sent to the search-engine notifier. Its methods are
    create, update, delete and lookup by id or slug.

The class invariant `Valid()` says two things. Every stored record passes
the schema and has a slash-free id. No two records share a non-empty slug.
Create, update and delete preserve it.

Foreign calls are parameters of the model:

- **Image store:** the result of each upload is a list entry, `None` for
  an upload that throws. The public ids whose destroy call throws are a
  set.
- **Random source:** a finite stream of random numbers.
- **Clock:** the year, and the date formatter of the sitemap.
- **Parsers:** `new URL`, `JSON.parse` on arrays, and `isValidObjectId`.
- **Configured origin:** `process.env.FRONTEND_ORIGIN` (`None` when
  unset).

## Model

| member | source | states |
|---|---|---|
| Form.ToNum | src/controllers/property.controller.ts:38-42 | An absent value and the empty string both read as `undefined`. Otherwise the result is a number exactly when the trimmed text is blank (read as 0) or decimal digits after an optional sign; digits read as their decimal value, and any other text is NaN, which `toNum` turns into `undefined`. |
| Form.ToNumOfRendered | src/controllers/property.controller.ts:38-42 | Every integer written in decimal is read back by `toNum` as itself. |
| Form.NumberValueOfNegative | src/controllers/property.controller.ts:40 | `Number` reads a minus sign followed by digits as the negated value. |
| Form.ParseStringArray | src/controllers/property.controller.ts:43-56 | An array is taken as it is. A missing value gives `[]`. A string is the JSON array it encodes, or else its comma-separated pieces. |
| Form.CommaListRoundTrip | src/controllers/property.controller.ts:50-53 | Take trimmed, non-empty, comma-free items and join them with commas. The string path parses the result back to exactly those items. |
| Form.PageAsWritten | src/controllers/property.controller.ts:61 | The page exactly as written. A missing page is 1. A sent page is NaN (`None`) exactly when `parseInt` finds no digits; otherwise it is the parsed value raised to at least 1. |
| Form.PageAsWrittenIsNaN | src/controllers/property.controller.ts:61 | Counterexample: the page value `"abc"` makes the page NaN. |
| Form.Page | src/controllers/property.controller.ts:61 | Corrected page: always at least 1. It equals the as-written page whenever that is a number, and is 1 when that is NaN. |
| Form.ParseIntOfRendered | src/controllers/property.controller.ts:61 | `parseInt` reads back every rendered natural number. |
| Form.PageSize | src/controllers/property.controller.ts:63-67 | The size lies in 1..50. It is 10 when both `pageSize` and `limit` are missing, or when the value is NaN or 0. A parsed value above 50 gives 50, a negative one gives 1, and one in 1..50 is used as it is. |
| Form.PageSizeHonoured | src/controllers/property.controller.ts:63-67 | A requested size between 1 and 50 is used as it is. |
| Form.EscapeRegex | src/controllers/property.controller.ts:75 | Every regular-expression special character of the result is escaped by a backslash. |
| Form.UnescapeEscape | src/controllers/property.controller.ts:75 | Read literally, the escaped pattern is the search text: escaping loses nothing. |
| Form.SearchPattern | src/controllers/property.controller.ts:69-75 | There is no filter exactly when the trimmed search is empty. Otherwise the filter is an escaped pattern that stands for exactly the trimmed search. |
| Form.OperationFilter | src/controllers/property.controller.ts:70-73 | There is no filter exactly when the trimmed operation type is empty. Otherwise the filter is that trimmed text. |
| Form.SkipCount | src/controllers/property.controller.ts:87 | The number of records skipped is never negative for valid page and size. |
| Form.ListQueryOf | src/controllers/property.controller.ts:59-91 | The corrected listing query, built on `Form.Page`. Its page equals the handler's page wherever that is a number, and is 1 with skip 0 where the handler's page is NaN. Size in 1..50, skip equal to the records of the earlier pages, and the search and operation filters. |
| Text.Trim | src/controllers/property.controller.ts:52 | `trim` keeps a slice of its input with only white space before and after it, and the slice neither starts nor ends with white space: exactly the surrounding white space is removed. |
| Text.TrimOfTrimmed | src/models/Property.ts:34-39 | Trimming a text without surrounding white space changes nothing. |
| Text.TrimIdempotent | src/models/Property.ts:34-39 | Trimming twice is trimming once. |
| Text.Split | src/controllers/property.controller.ts:51 | `split` gives at least one piece, and no piece holds a separator. |
| Text.SplitJoin | src/controllers/property.controller.ts:51 | Joining the pieces of a split with the separator gives back the text. |
| Text.SplitOfJoin | src/utils/videoUrls.ts:4 | Splitting a join of separator-free items gives back the items. |
| Text.NonEmptyTrimmedShape | src/controllers/property.controller.ts:52-53 | After `map(trim).filter(Boolean)`, every piece is non-empty and trimmed, and holds none of the separators the input pieces were free of. |
| Text.NonEmptyTrimmedOrder | src/controllers/property.controller.ts:52-53 | `map(trim).filter(Boolean)` keeps the trimmed pieces in their order. |
| Text.NonEmptyTrimmedComplete | src/controllers/property.controller.ts:52-53 | Every piece that is non-empty once trimmed is kept. |
| Text.NonEmptyTrimmedOfClean | src/controllers/property.controller.ts:52-53 | Trimmed, non-empty pieces pass through unchanged. |
| Text.Lower | src/utils/keywords.ts:29 | `toLowerCase` maps each character through the lower-case table and keeps the length. |
| Text.Unaccent | src/utils/slug.ts:5 | The result of `normalize("NFD")` and the removal of U+0300..U+036F holds no combining mark. |
| Text.NatToStringInjective | src/utils/keywords.ts:68 | Different numbers render differently. |
| Text.DigitsValueOfNatToString | src/utils/keywords.ts:68 | The rendered digits read back as the number. |
| Slug.Slugify | src/utils/slug.ts:3-11 | The slug uses only `a-z`, `0-9` and `-`, has no doubled hyphen, and has no leading hyphen. It has at most 90 characters. When shorter than 90 it has no trailing hyphen. Where the hyphens go is stated by `Slug.SlugifyRuns`. |
| Slug.Runs | src/utils/slug.ts:8 | The pieces between separator runs are non-empty runs of `[a-z0-9]` only. |
| Slug.CollapseOfRunStart | src/utils/slug.ts:8 | For text starting with a letter or digit, `replace(/[^a-z0-9]+/g, "-")` gives its runs joined by single hyphens, plus one hyphen when the text ends in a separator. |
| Slug.CollapseRuns | src/utils/slug.ts:8-9 | Replacing every separator run by one hyphen and then trimming the outer hyphens gives exactly the maximal runs of letters and digits, joined by single hyphens. |
| Slug.SlugifyRuns | src/utils/slug.ts:3-11 | `slugify(x)` is the maximal `[a-z0-9]` runs of the prepared input (accents stripped, lower case, `&` spelled ` y `), joined by single hyphens and cut at 90 characters. Two words are always separated by exactly one hyphen. |
| Slug.SlugifyContent | src/utils/slug.ts:3-11 | The slug's letters and digits are a prefix of those of the prepared input: accents stripped, lower case, `&` spelled `y`. They are all of them when nothing is cut off at 90. |
| Slug.SlugifyOfSlug | src/utils/slug.ts:3-11 | A slug without a trailing hyphen is its own slug. |
| Slug.TrimHyphensOfSlug | src/utils/slug.ts:9 | Slug text that neither starts nor ends with a hyphen is left unchanged by trimming hyphens. |
| Slug.SlugifyIdempotent | src/utils/slug.ts:3-11 | `slugify(slugify(x)) == slugify(x)` unless the 90-character cut leaves a trailing hyphen. |
| Slug.SlugifyAmpersand | src/utils/slug.ts:7-8 | `"a&b"` becomes `"a-y-b"`. |
| Slug.SlugBase | src/utils/slug.ts:19 | The base is `slugify(title)`, or `"propiedad"` when that is empty. It is never empty and starts with no hyphen. |
| Slug.Candidate | src/utils/slug.ts:20-32 | Candidate n starts with the base. From n = 2 on it continues with `-`. |
| Slug.CandidateInjective | src/utils/slug.ts:20-32 | Different counters give different candidates. |
| Slug.TakenCandidatesBound | src/utils/slug.ts:24-33 | At most as many candidates can be taken as there are other records, so the loop ends. |
| Slug.FirstFreeUnique | src/utils/slug.ts:24-33 | There is only one first free counter. |
| Slug.UniqueSlugDetermined | src/utils/slug.ts:14-34 | The store and the title decide the slug. |
| Slug.OwnSlugKept | src/utils/slug.ts:25-29 | Excluding a record's own id lets it keep its base slug when no other record holds it. |
| Slug.MakeUniqueSlug | src/utils/slug.ts:14-34 | The loop returns the first of `base`, `base-2`, `base-3`, … that no record other than the excluded one holds. |
| Keywords.Norm | src/utils/keywords.ts:27-30 | `norm` never lengthens its input, and its result holds no diacritic and no upper-case letter. |
| Keywords.NormOfPlain | src/utils/keywords.ts:27-30 | Plain lower-case text is its own `norm`. |
| Keywords.WordsFromTitle | src/utils/keywords.ts:32-39 | At most ten words. Each has more than two characters, is not a stop word and holds no blank. An empty title gives none. |
| Keywords.TitleOfWords | src/utils/keywords.ts:32-39 | Up to ten lower-case title words joined by blanks are read back as those words. |
| Keywords.PlacesFromLocation | src/utils/keywords.ts:41-47 | Every place is non-empty, trimmed and free of the separators `, - / \| >`. An empty location gives none. |
| Keywords.PlacesOfList | src/utils/keywords.ts:41-47 | A comma-joined list of clean places is read back as that list. |
| Keywords.OpVariants | src/utils/keywords.ts:49-55 | The lease phrases exactly when the lower-cased operation contains `arrend`, otherwise the sale phrases. |
| Keywords.OpVariantsOfOperationTypes | src/utils/keywords.ts:49-55 | `Arrendamiento` gives the lease phrases and `Venta` the sale phrases. |
| Keywords.SizeBits | src/utils/keywords.ts:67-69 | There are size phrases exactly when the measure is a positive number. |
| Keywords.Deduped | src/utils/keywords.ts:15-25 | Every output item is non-empty and trimmed. |
| Keywords.DedupedDistinct | src/utils/keywords.ts:15-25 | No two output items share a trimmed lower-case key. |
| Keywords.DedupedOrder | src/utils/keywords.ts:15-25 | The output is an ordered subsequence of the trimmed input. |
| Keywords.DedupedComplete | src/utils/keywords.ts:15-25 | Every non-empty key of the input is the key of some output item. |
| Keywords.DedupedKeepsFirst | src/utils/keywords.ts:15-25 | The first input item with a given key is the one kept. |
| Keywords.DedupedOfDistinct | src/utils/keywords.ts:15-25 | An input of filled items with distinct keys passes through unchanged. |
| Keywords.Dedupe | src/utils/keywords.ts:15-25 | The loop over the `seen` set computes the deduplicated list. |
| Keywords.Keywords | src/utils/keywords.ts:57-116 | At most 60 keywords, each non-empty and trimmed, no two equal ignoring case. |
| Keywords.GenerateKeywords | src/utils/keywords.ts:57-116 | The nested push loops produce exactly the keywords of the phrase-list specification. |
| Keywords.PushOpPhrases | src/utils/keywords.ts:73-80 | The loop appends the four operation phrases for every place and operation variant, in that order. |
| Keywords.PushNounPhrases | src/utils/keywords.ts:82-88 | The loop appends the two noun phrases for every place and noun, in that order. |
| Keywords.PushSizePhrases | src/utils/keywords.ts:90-98 | The loop appends the size phrases for every place and size phrase, in that order. |
| Keywords.PushTitlePhrases | src/utils/keywords.ts:100-110 | The loop appends the title-word phrases for every place, in that order. |
| Keywords.TitleWordPhrase | src/utils/keywords.ts:100-110 | For every title word other than `campo`/`campos` and every place, `campo <word> <place>` is among the phrases. |
| Keywords.HectarePhrase | src/utils/keywords.ts:67-98 | With a positive measure, `campo <n> ha <place>` is among the phrases for every place. |
| Keywords.MeasureIgnoredUnlessPositive | src/utils/keywords.ts:67-69 | A missing, zero or negative measure gives the same keywords as no measure. |
| Keywords.KeywordsWithoutPlaces | src/utils/keywords.ts:112-115 | Without places the keywords are the `campo <op>` phrases and the base nouns: 12 for a lease, 11 for a sale. |
| Keywords.FallbacksDistinct | src/utils/keywords.ts:112-115 | The fallback phrases are already distinct, so deduplication keeps them all. |
| VideoUrls.IsLikelyVideoUrl | src/utils/videoUrls.ts:13-27 | A link is a video link exactly when it parses and its host or path marks it as YouTube, Vimeo or MP4. A link that does not parse is never one. |
| VideoUrls.RawEntries | src/utils/videoUrls.ts:2-5 | An array is taken element-wise. A string is split on commas, and the pieces join back to it. Anything else gives `[]`. |
| VideoUrls.KeepVideos | src/utils/videoUrls.ts:10 | Only video links are kept. |
| VideoUrls.KeepVideosComplete | src/utils/videoUrls.ts:10 | Every video link is kept. |
| VideoUrls.NormalizeVideoUrls | src/utils/videoUrls.ts:1-11 | Every output entry is non-empty, trimmed and a video link. A missing input gives `[]`. |
| VideoUrls.NormalizeVideoUrlsOrder | src/utils/videoUrls.ts:7-10 | The output is an ordered subsequence of the trimmed input pieces. |
| VideoUrls.NormalizeVideoUrlsMembers | src/utils/videoUrls.ts:7-10 | An entry is in the output exactly when it is a non-empty trimmed input piece and a video link. |
| VideoUrls.UnparseableDropped | src/utils/videoUrls.ts:14-26 | Text that does not parse as a URL never reaches the output. |
| VideoUrls.NormalizeVideoUrlsRoundTrip | src/utils/videoUrls.ts:1-11 | Clean video links survive normalisation unchanged, sent either as a comma-joined string or as an array. |
| Seo.Origin | src/routes/seo.ts:21 | The configured origin when it is set and not empty, otherwise the development default. |
| Seo.SiteBase | src/routes/seo.ts:20-25 | Exactly one trailing `/` is stripped from the origin. |
| Seo.SiteBaseStripsOne | src/routes/seo.ts:21-24 | An origin ending in `//` keeps one slash. |
| Seo.SiteBaseOfDefault | src/routes/seo.ts:21 | Without a configured origin the base is `http://localhost:5173`. |
| Seo.RobotsLines | src/routes/seo.ts:38-46 | The robots text has eight lines. |
| Seo.RobotsEnding | src/routes/seo.ts:45-47 | The robots text ends with `Sitemap: <site>/sitemap.xml` and a line break. |
| Seo.RobotsLinesRoundTrip | src/routes/seo.ts:38-47 | For a site without line breaks, splitting the robots text at line breaks gives back its eight lines. |
| Seo.StaticUrls | src/routes/seo.ts:57-64 | Six static entries, each under the site and without `lastmod`. |
| Seo.Lastmod | src/routes/seo.ts:78-83 | `lastmod` comes from `updatedAt`, else from `createdAt`. It is omitted when both are missing or the date does not format. |
| Seo.PropUrl | src/routes/seo.ts:77-87 | A record's entry has `loc` = `<site>/properties/<id>[/<slug>]`, its `lastmod`, `weekly` and `0.7`. |
| Seo.Entries | src/routes/seo.ts:89 | The six static entries come first, then one entry per record in query order. |
| Seo.ReadUrlOf | src/routes/seo.ts:91-97 | One serialised entry reads back as the entry. Each optional element is present only when non-empty, in the order lastmod, changefreq, priority. |
| Seo.ReadUrlsOf | src/routes/seo.ts:91-98 | The concatenated entries read back as the list of entries. |
| Seo.EntriesClean | src/routes/seo.ts:57-87 | With `<`-free site, ids, slugs and dates, every entry is safe to serialise. |
| Seo.SitemapRoundTrip | src/routes/seo.ts:54-104 | The sitemap document, with its prolog and `urlset` wrapper, reads back as exactly the six static entries followed by the record entries. |
| PropertySchema.Errors | src/models/Property.ts:34-39 | A field is reported exactly when its validator fails. Title and location fail when missing or blank; measure fails when missing. Operation type fails when missing, or with `NotInEnum` when outside `Venta`/`Arrendamiento`. There are no errors exactly when all four pass. |
| PropertySchema.DraftErrors | src/models/Property.ts:32-58 | A draft has no errors exactly when it is acceptable. |
| PropertySchema.Validate | src/models/Property.ts:32-58 | A draft is stored exactly when every validator passes. The stored record has a trimmed non-empty title and location and an operation type of the enumeration. A rejected draft reports its errors. |
| PropertySchema.ValidateStored | src/models/Property.ts:32-58 | Saving a valid record unchanged stores it as it is. |
| PropertySchema.Defaults | src/models/Property.ts:35-52 | Set only the required fields. The record then gets `""` for the description, null numbers, condition and age, and empty lists. |
| PropertySchema.ImageUrls | src/controllers/property.controller.ts:290-291 | `imageUrls` lists the image addresses in order. |
| PropertyController.RefSuffix | src/controllers/property.controller.ts:13 | Six characters, all from the 32-character alphabet without `I`, `O`, `0`, `1`. |
| PropertyController.RefCandidate | src/controllers/property.controller.ts:32 | A candidate is `BARR-<year>-` followed by six alphabet characters. |
| PropertyController.FreeRefFrom | src/controllers/property.controller.ts:29-35 | The result is a candidate no record holds, with every earlier candidate taken. `None` means every candidate of the stream is taken. |
| PropertyController.FreeRefShape | src/controllers/property.controller.ts:29-35 | A generated reference has the `BARR-<year>-XXXXXX` shape and no record holds it. |
| PropertyController.PropertyService.GenerateUniqueRef | src/controllers/property.controller.ts:29-35 | The do-while loop returns the first free candidate of the stream. |
| PropertyController.PropertyUrlIsSitemapLoc | src/controllers/property.controller.ts:22-27 | The notified address is the address the sitemap lists for the record. |
| PropertyController.PropertyUrlInjective | src/controllers/property.controller.ts:22-27 | For slash-free ids, different (id, slug) pairs have different addresses. |
| PropertyController.Kept | src/controllers/property.controller.ts:224-226 | Only images whose address is in the keep list are kept. |
| PropertyController.Dropped | src/controllers/property.controller.ts:210-212 | Only images whose address is not in the keep list are destroyed. |
| PropertyController.ImagesSplit | src/controllers/property.controller.ts:210-226 | Kept and destroyed images partition the stored images, each side in its original order. |
| PropertyController.Succeeded | src/controllers/property.controller.ts:228-235 | The images of the uploads up to the first that throws, in order. |
| PropertyController.PropertyService.UploadAll | src/controllers/property.controller.ts:228-235 | The loop uploads the files in turn, stopping at the first that throws. It returns the uploaded images and adds their ids to the image store. Success means every upload succeeded. |
| PropertyController.PropertyService.DestroyAll | src/controllers/property.controller.ts:213-222 | The loop calls destroy once per image, in order. The objects removed are the ones whose destroy does not throw, and a throw does not stop the loop. |
| PropertyController.PropertyService.Put | src/controllers/property.controller.ts:288 | Writing a record the schema accepted, under a slash-free id and with a slug no other record holds, keeps the invariant and changes nothing but that entry. |
| PropertyController.PropertyService.Notify | src/controllers/property.controller.ts:299-301 | One fire-and-forget notification: the address batch is appended to the log and nothing else changes. |
| PropertyController.SlugsOf | src/utils/slug.ts:25-29 | The slug held by each stored record. |
| PropertyController.RequestRef | src/controllers/property.controller.ts:246-249 | The request reference, trimmed. |
| PropertyController.CreateRef | src/controllers/property.controller.ts:136-137 | A non-blank request reference wins. Otherwise a generated reference is used: free and of the `BARR-<year>-` shape. |
| PropertyController.UpdateRef | src/controllers/property.controller.ts:246-249 | The request reference wins, then the stored one, then a generated one. A record with a reference always gets one. |
| PropertyController.IncomingTitle | src/controllers/property.controller.ts:240-241 | The incoming title is the trimmed text when one was sent. |
| PropertyController.UpdatePings | src/controllers/property.controller.ts:294-298 | The new address comes first. The old one is added exactly when the title changed and the old slug was set and differs. |
| PropertyController.UpdatePingsDistinct | src/controllers/property.controller.ts:294-298 | The two notified addresses are different. |
| PropertyController.CreateValidation | src/controllers/property.controller.ts:161-183 | A create is rejected with the errors of the form's title, location, measure and operation type. |
| PropertyController.UpdateValidation | src/controllers/property.controller.ts:251-268 | An update is rejected with the errors of the assigned title, location, measure and operation type. |
| PropertyController.CreateStored | src/controllers/property.controller.ts:161-183 | A created record holds the form's title and location as trimmed, its operation type, measure, property type and condition, `""` for a missing description, and no dwelling-room list or age. Each of price, lat, lng, environments, bedrooms, bathrooms and house measures is the form's value read by `toNum` (null when left out). Services and extras are the parsed form lists. The reference, slug, images, links and keywords are the computed ones. |
| PropertyController.UpdateKeeps | src/controllers/property.controller.ts:251-265 | A field the form leaves out keeps its stored value, for every `??` assignment. The dwelling-room list and age are never touched. |
| PropertyController.UpdateReplaces | src/controllers/property.controller.ts:246-268 | Sent title and location replace the stored ones, trimmed. A sent description, operation type, property type, condition, readable measure or readable house measures replaces the stored value. Each of price, lat, lng, environments, bedrooms and bathrooms is the form's value read by `toNum`, so it is cleared when left out. Services and extras are the parsed form lists. Reference, slug, images, links and keywords are the computed ones. |
| PropertyController.UpdateKeywordsFollowRecord | src/controllers/property.controller.ts:271-277 | The keywords an update stores are the keywords of the record it stores. |
| PropertyController.ResentTitleUnchanged | src/controllers/property.controller.ts:238-243 | Resending the stored title, with or without surrounding blanks, is not a title change. |
| PropertyController.UpdateImages | src/controllers/property.controller.ts:224-235 | The new image list has the kept images in their stored order, then every upload in order. Its length is the stored count minus the destroyed ones plus the uploads. |
| PropertyController.PutValid | src/controllers/property.controller.ts:280-286 | Writing a valid record whose slug no other record holds keeps the store invariant. |
| PropertyController.SavedOutcome | src/controllers/property.controller.ts:161-183 | Setting a draft's slug and keywords changes neither its errors nor whether it is stored, and the stored record carries that slug. |
| PropertyController.FreeSlugUnheld | src/utils/slug.ts:25-30 | A slug the probe finds free is held by no other record. |
| PropertyController.PropertyService.constructor | src/controllers/property.controller.ts:1-13 | The service starts with an empty store, image store and logs, and satisfies the invariant. |
| PropertyController.PropertyService.CreateSlug | src/controllers/property.controller.ts:150-151 | The create slug is the first free slug for the title (or the reference), and no record holds it. |
| PropertyController.PropertyService.CreateRecord | src/controllers/property.controller.ts:150-186 | The record is stored under the new id exactly when the form validates, under the first free slug. A rejected form leaves the store as it was. |
| PropertyController.PropertyService.Create | src/controllers/property.controller.ts:132-199 | Outcomes, in order: refs exhausted; an upload fails (the earlier uploads stay in the image store); the schema rejects (with the form's errors); created. On success the stored record is `CreatedAs` the form, one notification is sent, and the invariant holds. |
| PropertyController.PropertyService.UpdateSlug | src/controllers/property.controller.ts:238-286 | The stored slug unless the title changed. Then it is the first slug for the new title held by no other record. |
| PropertyController.PropertyService.SaveRecord | src/controllers/property.controller.ts:271-291 | The record is saved exactly when the assigned values validate, under a slug that follows the slug rule. A rejected save changes nothing. |
| PropertyController.PropertyService.Update | src/controllers/property.controller.ts:202-308 | A 404 changes nothing. Otherwise the images left out of the keep list are destroyed and the new files uploaded. The outcome is then: an upload fails; refs exhausted; rejected with the merged errors; or saved as `UpdatedAs` with the notifications and the invariant. |
| PropertyController.PropertyService.Delete | src/controllers/property.controller.ts:311-342 | 404 for an unknown id. Otherwise every image is destroyed in turn, the record is removed and the address computed before the removal is notified. |
| PropertyController.PropertyService.GetByIdOrSlug | src/controllers/property.controller.ts:106-129 | An ObjectId held by a record finds that record. Otherwise the lookup finds a record with that slug exactly when one exists. 404 otherwise. |

## Left out

- HTTP status codes, response bodies beyond the record and `imageUrls`, logging, and the `try`/`catch` that turns an unexpected throw into a 500. A thrown upload or schema rejection becomes a `ServerError` reply; other throws are not modelled.
- The Mongoose document model: `findById`, `findOne`, `exists`, `create`, `save` and `deleteOne` are map reads and writes on `store`. Timestamps (`createdAt`, `updatedAt`) are not stored; the sitemap takes them per row as optional numbers.
- Mongoose strict mode: the schema declares `imageUrls` but not `images`, `ref`, `slug`, `keywords` or `propertyType`, which the controller writes. Under Mongoose's default strict mode those paths would be discarded. The model stores them, as the controller and the sitemap evidently expect; the schema's own `imageUrls` default is not part of this model.
- The listing handler's database query (`find`, `sort`, `countDocuments`): only the query it builds (page, size, skip, filters) is modelled.
- Concurrency: the probe-then-write race between two creates with the same ref or slug, and the fire-and-forget notification promises. The operations are sequential.
- Cloudinary uploads and destroys, `nanoid`'s random source, `new Date().getFullYear()`, `fmtDate`/`toISOString`, `new URL`, `JSON.parse` and `mongoose.isValidObjectId` are parameters of the model. The network calls of the search-engine notifier are reduced to appending the address batch to `pings`.
- PropertyController.PropertyService.GenerateUniqueRef: the random stream is finite, so the model can run out of candidates (`RefsExhausted`) where the source would keep drawing.
- Form.ToNum: numbers are integers. `Number` of a decimal fraction, an exponent, `Infinity` or hexadecimal text is not modelled (such text reads as NaN here).
- Form.PageSize: `parseInt` reads decimal integers only; a value with a fractional part reads as its integer prefix, as in the source.
- Unicode: the character tables cover part of the Unicode range only, and outside it the model differs from the source as follows.
- Text.Lower: `toLowerCase` lowers ASCII and Latin-1 capitals only. Other capitals (Latin Extended, Greek, Cyrillic) are kept as they are.
- Text.Unaccent: `normalize("NFD")` decomposes precomposed Latin-1 letters only. Latin Extended letters such as `ő`, `ą` or `ś` keep their accent, so `Slug.Slugify` turns them into a hyphen ("Kőszeg" gives `k-szeg` where the source gives `koszeg`), and `Keywords.Norm` keeps them.
- Keywords.WordsFromTitle: `\p{Letter}`/`\p{Number}` cover U+0000–U+024F only (ASCII, Latin-1, Latin Extended-A/B). Greek, Cyrillic and other scripts' letters and digits are blanked, so a title word written in them is dropped where the source keeps it. `\p{Diacritic}` is the set of spacing and combining marks listed in `Keywords.IsDiacritic`.
- PropertyController.PropertyService.Update and PropertyController.PropertyService.Delete: an id that is not an ObjectId makes `findById` throw a cast error, which the source answers with 500; the model answers `NotFound`, as for any id no record holds.
- PropertyController.PropertyService.GetByIdOrSlug: a record without a slug holds `""` in the model, so the slug lookup never matches the empty key. In the database such a record has no `slug` path, which `findOne({ slug })` does not match either.
- Keywords: the JavaScript `Set` of seen keys is a Dafny set; the two are equal on strings.
- Images: the `secure_url`/`public_id` of an upload are the upload's given result. Removing an object from the image store is all a successful destroy does.
- The search-engine notifier (`notifySearchEngines`), authentication, email, routing and the batch scripts are not part of this model.

## Findings

| source | as written | input that shows it | evidently intended | confidence | as-written member | corrected member |
|---|---|---|---|---|---|---|
| src/controllers/property.controller.ts:61 | `Math.max(parseInt(String(page ?? 1), 10), 1)` is NaN when the page parameter has no leading digits, because `Math.max` of NaN is NaN. The skip `(page - 1) * pageSize` is then NaN as well. | `?page=abc` | A non-numeric page falls back to page 1, as a non-numeric page size falls back to 10 on line 65. The corrected listing query `Form.ListQueryOf` then starts at page 1 with skip 0. | not executed | Form.PageAsWrittenIsNaN | Form.Page |
